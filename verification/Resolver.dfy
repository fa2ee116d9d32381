/** Inlining of local references (`_resolve_deep`) in an arbitrary, possibly cyclic document. */
module Resolver {
  import opened JsonValues
  import opened Pointers
  import opened Strings

  const MAX_DEPTH: nat := 30

  /** The local reference a mapping carries: a `$ref` member that is a string starting with `#/`. */
  function Reference(fields: map<string, Json>): Option<string> {
    if "$ref" in fields && fields["$ref"].Str? && IsLocalReference(fields["$ref"].s)
    then Some(fields["$ref"].s)
    else None
  }

  /** The referenced mapping, overridden by the members written beside the `$ref`. */
  function Merge(document: map<string, Json>, fields: map<string, Json>, reference: string): map<string, Json> {
    LocalRef(document, reference) + (fields - {"$ref"})
  }

  function ResolveDeep(document: map<string, Json>, value: Json, seen: set<string>, depth: nat): (r: Json)
    ensures value.Obj? ==> r.Obj?
    decreases MAX_DEPTH + 1 - depth
  {
    if depth > MAX_DEPTH then EMPTY
    else match value
      case Obj(fields) =>
        (match Reference(fields)
         case Some(reference) =>
           if reference in seen then EMPTY
           else ResolveDeep(document, Obj(Merge(document, fields, reference)), seen + {reference}, depth + 1)
         case None =>
           Obj(map key | key in fields :: ResolveDeep(document, fields[key], seen, depth + 1)))
      case Arr(items) =>
        Arr(seq(|items|, i requires 0 <= i < |items| => ResolveDeep(document, items[i], seen, depth + 1)))
      case _ => value
  }

  /** The call the parser makes. */
  function Resolve(document: map<string, Json>, value: Json): Json {
    ResolveDeep(document, value, {}, 0)
  }

  // ---------- no reference survives, and resolving again changes nothing ----------

  /** No mapping at any depth carries a local reference. */
  ghost predicate ReferenceFree(value: Json) {
    match value
    case Obj(fields) => Reference(fields).None? && forall key | key in fields :: ReferenceFree(fields[key])
    case Arr(items) => forall i | 0 <= i < |items| :: ReferenceFree(items[i])
    case _ => true
  }

  /** Everything that lies below the depth limit is already the empty mapping. */
  ghost predicate Trimmed(value: Json, depth: nat)
    decreases MAX_DEPTH + 1 - depth
  {
    if depth > MAX_DEPTH then value == EMPTY
    else match value
      case Obj(fields) => forall key | key in fields :: Trimmed(fields[key], depth + 1)
      case Arr(items) => forall i | 0 <= i < |items| :: Trimmed(items[i], depth + 1)
      case _ => true
  }

  lemma {:induction false} StringsComeFromStrings(document: map<string, Json>, value: Json, seen: set<string>,
        depth: nat)
    requires ResolveDeep(document, value, seen, depth).Str?
    ensures ResolveDeep(document, value, seen, depth) == value
  {
  }

  lemma {:induction false} NoReferenceAppears(document: map<string, Json>, fields: map<string, Json>, seen: set<string>,
        depth: nat)
    requires depth <= MAX_DEPTH && Reference(fields).None?
    ensures Reference(ResolveDeep(document, Obj(fields), seen, depth).fields).None?
  {
    if "$ref" in fields && ResolveDeep(document, fields["$ref"], seen, depth + 1).Str? {
      StringsComeFromStrings(document, fields["$ref"], seen, depth + 1);
    }
  }

  lemma {:induction false} ResolvedIsReferenceFree(document: map<string, Json>, value: Json, seen: set<string>,
        depth: nat)
    ensures ReferenceFree(ResolveDeep(document, value, seen, depth))
    decreases MAX_DEPTH + 1 - depth
  {
    if depth <= MAX_DEPTH {
      match value
      case Obj(fields) =>
        match Reference(fields) {
          case Some(reference) =>
            if reference !in seen {
              ResolvedIsReferenceFree(document, Obj(Merge(document, fields, reference)), seen + {reference}, depth + 1);
            }
          case None =>
            NoReferenceAppears(document, fields, seen, depth);
            var resolved := ResolveDeep(document, value, seen, depth).fields;
            forall key | key in resolved ensures ReferenceFree(resolved[key]) {
              ResolvedIsReferenceFree(document, fields[key], seen, depth + 1);
            }
        }
      case Arr(items) =>
        forall i | 0 <= i < |items| ensures ReferenceFree(ResolveDeep(document, items[i], seen, depth + 1)) {
          ResolvedIsReferenceFree(document, items[i], seen, depth + 1);
        }
      case _ =>
    }
  }

  lemma {:induction false} TrimmedEarlier(value: Json, depth: nat)
    requires Trimmed(value, depth + 1)
    ensures Trimmed(value, depth)
    decreases MAX_DEPTH + 1 - depth
  {
    if depth < MAX_DEPTH {
      match value
      case Obj(fields) =>
        forall key | key in fields ensures Trimmed(fields[key], depth + 1) {
          TrimmedEarlier(fields[key], depth + 1);
        }
      case Arr(items) =>
        forall i | 0 <= i < |items| ensures Trimmed(items[i], depth + 1) {
          TrimmedEarlier(items[i], depth + 1);
        }
      case _ =>
    }
  }

  lemma {:induction false} ResolvedIsTrimmed(document: map<string, Json>, value: Json, seen: set<string>, depth: nat)
    ensures Trimmed(ResolveDeep(document, value, seen, depth), depth)
    decreases MAX_DEPTH + 1 - depth
  {
    if depth <= MAX_DEPTH {
      match value
      case Obj(fields) =>
        match Reference(fields) {
          case Some(reference) =>
            if reference !in seen {
              var merged := Obj(Merge(document, fields, reference));
              ResolvedIsTrimmed(document, merged, seen + {reference}, depth + 1);
              TrimmedEarlier(ResolveDeep(document, merged, seen + {reference}, depth + 1), depth);
            }
          case None =>
            forall key | key in fields ensures Trimmed(ResolveDeep(document, fields[key], seen, depth + 1), depth + 1) {
              ResolvedIsTrimmed(document, fields[key], seen, depth + 1);
            }
        }
      case Arr(items) =>
        forall i | 0 <= i < |items| ensures Trimmed(ResolveDeep(document, items[i], seen, depth + 1), depth + 1) {
          ResolvedIsTrimmed(document, items[i], seen, depth + 1);
        }
      case _ =>
    }
  }

  lemma {:induction false} TrimmedIsFixed(document: map<string, Json>, value: Json, seen: set<string>, depth: nat)
    requires ReferenceFree(value) && Trimmed(value, depth)
    ensures ResolveDeep(document, value, seen, depth) == value
    decreases MAX_DEPTH + 1 - depth
  {
    if depth <= MAX_DEPTH {
      match value
      case Obj(fields) =>
        forall key | key in fields ensures ResolveDeep(document, fields[key], seen, depth + 1) == fields[key] {
          TrimmedIsFixed(document, fields[key], seen, depth + 1);
        }
        assert (map key | key in fields :: ResolveDeep(document, fields[key], seen, depth + 1)) == fields;
      case Arr(items) =>
        forall i | 0 <= i < |items| ensures ResolveDeep(document, items[i], seen, depth + 1) == items[i] {
          TrimmedIsFixed(document, items[i], seen, depth + 1);
        }
        assert seq(|items|, i requires 0 <= i < |items| => ResolveDeep(document, items[i], seen, depth + 1)) == items;
      case _ =>
    }
  }

  /** For every document, cyclic ones included: resolving a resolved value, even against
      another document, gives the value back. */
  lemma {:induction false} ResolveIdempotent(document: map<string, Json>, other: map<string, Json>, value: Json)
    ensures Resolve(other, Resolve(document, value)) == Resolve(document, value)
  {
    ResolvedIsReferenceFree(document, value, {}, 0);
    ResolvedIsTrimmed(document, value, {}, 0);
    TrimmedIsFixed(other, Resolve(document, value), {}, 0);
  }

  // ---------- the resolver without a depth limit ----------

  /** All local references occurring in a value. */
  ghost function References(value: Json): set<string> {
    match value
    case Obj(fields) =>
      (if Reference(fields).Some? then {Reference(fields).value} else {})
      + (set key, reference | key in fields && reference in References(fields[key]) :: reference)
    case Arr(items) => set i, reference | 0 <= i < |items| && reference in References(items[i]) :: reference
    case _ => {}
  }

  lemma {:induction false} WalkKeepsReferences(current: Json, parts: seq<string>)
    ensures References(Walk(current, parts)) <= References(current)
    decreases |parts|
  {
    if parts != [] {
      var key := Unescape(parts[0]);
      if current.Obj? && key in current.fields {
        WalkKeepsReferences(current.fields[key], parts[1..]);
      }
    }
  }

  lemma {:induction false} LocalRefKeepsReferences(document: map<string, Json>, reference: string)
    ensures References(Obj(LocalRef(document, reference))) <= References(Obj(document))
  {
    if IsLocalReference(reference) {
      WalkKeepsReferences(Obj(document), Split(reference[2..], '/'));
    }
  }

  lemma {:induction false} MergeKeepsReferences(document: map<string, Json>, fields: map<string, Json>,
        reference: string)
    ensures References(Obj(Merge(document, fields, reference)))
         <= References(Obj(LocalRef(document, reference))) + References(Obj(fields))
  {
  }

  /** Every reference the resolver can meet is known beforehand. */
  ghost predicate Knows(known: set<string>, document: map<string, Json>, value: Json) {
    References(Obj(document)) <= known && References(value) <= known
  }

  /** The same recursion with the `seen` cut only. It ends because a followed reference
      leaves fewer unseen ones, although the value it leads to may be larger. */
  ghost function ResolveFree(document: map<string, Json>, value: Json, seen: set<string>, known: set<string>): (r: Json)
    requires Knows(known, document, value)
    decreases known - seen, value
  {
    match value
    case Obj(fields) =>
      (match Reference(fields)
       case Some(reference) =>
         if reference in seen then EMPTY
         else
           LocalRefKeepsReferences(document, reference);
           MergeKeepsReferences(document, fields, reference);
           assert reference in known - seen;
           ResolveFree(document, Obj(Merge(document, fields, reference)), seen + {reference}, known)
       case None =>
         Obj(map key | key in fields :: ResolveFree(document, fields[key], seen, known)))
    case Arr(items) =>
      Arr(seq(|items|, i requires 0 <= i < |items| => ResolveFree(document, items[i], seen, known)))
    case _ => value
  }

  /** The cut at depth 31 is never reached while resolving `value` from `depth`. */
  ghost predicate StaysWithin(document: map<string, Json>, value: Json, seen: set<string>, depth: nat)
    decreases MAX_DEPTH + 1 - depth
  {
    depth <= MAX_DEPTH &&
    match value
    case Obj(fields) =>
      (match Reference(fields)
       case Some(reference) =>
         reference in seen
         || StaysWithin(document, Obj(Merge(document, fields, reference)), seen + {reference}, depth + 1)
       case None => forall key | key in fields :: StaysWithin(document, fields[key], seen, depth + 1))
    case Arr(items) => forall i | 0 <= i < |items| :: StaysWithin(document, items[i], seen, depth + 1)
    case _ => true
  }

  /** The value resolves to the empty mapping without the depth limit. */
  ghost predicate Vanishes(document: map<string, Json>, value: Json, seen: set<string>, known: set<string>)
    requires Knows(known, document, value)
    decreases known - seen, value
  {
    value.Obj? &&
    match Reference(value.fields)
    case Some(reference) =>
      reference in seen
      || (LocalRefKeepsReferences(document, reference);
          MergeKeepsReferences(document, value.fields, reference);
          assert reference in known - seen;
          Vanishes(document, Obj(Merge(document, value.fields, reference)), seen + {reference}, known))
    case None => value.fields == map[]
  }

  /** Wherever the cut at depth 31 strikes, there is nothing left to lose. */
  ghost predicate CutIsHarmless(document: map<string, Json>, value: Json, seen: set<string>, depth: nat,
        known: set<string>)
    requires Knows(known, document, value)
    decreases MAX_DEPTH + 1 - depth
  {
    if depth > MAX_DEPTH then Vanishes(document, value, seen, known)
    else match value
      case Obj(fields) =>
        (match Reference(fields)
         case Some(reference) =>
           reference in seen
           || (LocalRefKeepsReferences(document, reference);
               MergeKeepsReferences(document, fields, reference);
               CutIsHarmless(document, Obj(Merge(document, fields, reference)), seen + {reference}, depth + 1, known))
         case None => forall key | key in fields :: CutIsHarmless(document, fields[key], seen, depth + 1, known))
      case Arr(items) => forall i | 0 <= i < |items| :: CutIsHarmless(document, items[i], seen, depth + 1, known)
      case _ => true
  }

  lemma {:induction false} VanishesExactly(document: map<string, Json>, value: Json, seen: set<string>,
        known: set<string>)
    requires Knows(known, document, value)
    ensures Vanishes(document, value, seen, known) <==> ResolveFree(document, value, seen, known) == EMPTY
    decreases known - seen, value
  {
    if value.Obj? {
      match Reference(value.fields)
      case Some(reference) =>
        if reference !in seen {
          LocalRefKeepsReferences(document, reference);
          MergeKeepsReferences(document, value.fields, reference);
          assert reference in known - seen;
          VanishesExactly(document, Obj(Merge(document, value.fields, reference)), seen + {reference}, known);
        }
      case None =>
        var resolved := ResolveFree(document, value, seen, known).fields;
        assert resolved.Keys == value.fields.Keys;
        assert value.fields == map[] <==> value.fields.Keys == {};
    }
  }

  lemma {:induction false} MembersCutExactly(document: map<string, Json>, fields: map<string, Json>, seen: set<string>,
        depth: nat, known: set<string>)
    requires Knows(known, document, Obj(fields)) && depth <= MAX_DEPTH && Reference(fields).None?
    requires forall key | key in fields ::
      (ResolveDeep(document, fields[key], seen, depth + 1) == ResolveFree(document, fields[key], seen, known))
      <==> CutIsHarmless(document, fields[key], seen, depth + 1, known)
    ensures ResolveDeep(document, Obj(fields), seen, depth) == ResolveFree(document, Obj(fields), seen, known)
       <==> CutIsHarmless(document, Obj(fields), seen, depth, known)
  {
    var capped := ResolveDeep(document, Obj(fields), seen, depth).fields;
    var free := ResolveFree(document, Obj(fields), seen, known).fields;
    assert capped == free <==> forall key | key in fields :: capped[key] == free[key];
  }

  lemma {:induction false} ItemsCutExactly(document: map<string, Json>, items: seq<Json>, seen: set<string>, depth: nat,
        known: set<string>)
    requires Knows(known, document, Arr(items)) && depth <= MAX_DEPTH
    requires forall i | 0 <= i < |items| ::
      (ResolveDeep(document, items[i], seen, depth + 1) == ResolveFree(document, items[i], seen, known))
      <==> CutIsHarmless(document, items[i], seen, depth + 1, known)
    ensures ResolveDeep(document, Arr(items), seen, depth) == ResolveFree(document, Arr(items), seen, known)
       <==> CutIsHarmless(document, Arr(items), seen, depth, known)
  {
    var capped := ResolveDeep(document, Arr(items), seen, depth).items;
    var free := ResolveFree(document, Arr(items), seen, known).items;
    assert forall i | 0 <= i < |items| ::
        capped[i] == ResolveDeep(document, items[i], seen, depth + 1)
            && free[i] == ResolveFree(document, items[i], seen, known);
    assert capped == free <==> forall i | 0 <= i < |items| :: capped[i] == free[i];
  }

  /** The depth limit changes the result exactly when it cuts away something that would not
      have resolved to the empty mapping anyway. */
  lemma {:induction false} DepthLimitExactly(document: map<string, Json>, value: Json, seen: set<string>, depth: nat,
        known: set<string>)
    requires Knows(known, document, value)
    ensures ResolveDeep(document, value, seen, depth) == ResolveFree(document, value, seen, known)
       <==> CutIsHarmless(document, value, seen, depth, known)
    decreases MAX_DEPTH + 1 - depth
  {
    if depth > MAX_DEPTH {
      VanishesExactly(document, value, seen, known);
    } else {
      match value
      case Obj(fields) =>
        match Reference(fields) {
          case Some(reference) =>
            if reference !in seen {
              LocalRefKeepsReferences(document, reference);
              MergeKeepsReferences(document, fields, reference);
              DepthLimitExactly(document, Obj(Merge(document, fields, reference)), seen + {reference}, depth + 1,
                  known);
            }
          case None =>
            forall key | key in fields
              ensures (ResolveDeep(document, fields[key], seen, depth + 1)
                   == ResolveFree(document, fields[key], seen, known))
                 <==> CutIsHarmless(document, fields[key], seen, depth + 1, known)
            {
              DepthLimitExactly(document, fields[key], seen, depth + 1, known);
            }
            MembersCutExactly(document, fields, seen, depth, known);
        }
      case Arr(items) =>
        forall i | 0 <= i < |items|
          ensures (ResolveDeep(document, items[i], seen, depth + 1) == ResolveFree(document, items[i], seen, known))
             <==> CutIsHarmless(document, items[i], seen, depth + 1, known)
        {
          DepthLimitExactly(document, items[i], seen, depth + 1, known);
        }
        ItemsCutExactly(document, items, seen, depth, known);
      case _ =>
    }
  }

  lemma {:induction false} StaysWithinIsHarmless(document: map<string, Json>, value: Json, seen: set<string>,
        depth: nat, known: set<string>)
    requires Knows(known, document, value)
    requires StaysWithin(document, value, seen, depth)
    ensures CutIsHarmless(document, value, seen, depth, known)
    decreases MAX_DEPTH + 1 - depth
  {
    match value
    case Obj(fields) =>
      match Reference(fields) {
        case Some(reference) =>
          if reference !in seen {
            LocalRefKeepsReferences(document, reference);
            MergeKeepsReferences(document, fields, reference);
            StaysWithinIsHarmless(document, Obj(Merge(document, fields, reference)), seen + {reference}, depth + 1,
                known);
          }
        case None =>
          forall key | key in fields ensures CutIsHarmless(document, fields[key], seen, depth + 1, known) {
            StaysWithinIsHarmless(document, fields[key], seen, depth + 1, known);
          }
      }
    case Arr(items) =>
      forall i | 0 <= i < |items| ensures CutIsHarmless(document, items[i], seen, depth + 1, known) {
        StaysWithinIsHarmless(document, items[i], seen, depth + 1, known);
      }
    case _ =>
  }

  /** The cap-free meaning of a value: a cyclic reference is cut at its second occurrence. */
  ghost function Meaning(document: map<string, Json>, value: Json): Json {
    ResolveFree(document, value, {}, References(Obj(document)) + References(value))
  }

  /** Unless nesting and reference chains exceed 30 levels, the limit plays no part. */
  lemma {:induction false} ResolveMeansMeaning(document: map<string, Json>, value: Json)
    requires StaysWithin(document, value, {}, 0)
    ensures Resolve(document, value) == Meaning(document, value)
  {
    var known := References(Obj(document)) + References(value);
    StaysWithinIsHarmless(document, value, {}, 0, known);
    DepthLimitExactly(document, value, {}, 0, known);
  }

  /** `levels` mappings around a string. */
  function Nest(levels: nat): Json {
    if levels == 0 then Str("leaf") else Obj(map["child" := Nest(levels - 1)])
  }

  lemma {:induction false} NestHasNoReferences(levels: nat)
    ensures References(Nest(levels)) == {}
  {
    if levels > 0 {
      NestHasNoReferences(levels - 1);
    }
  }

  lemma {:induction false} NestHarmless(document: map<string, Json>, levels: nat, depth: nat, known: set<string>)
    requires Knows(known, document, Nest(levels))
    requires depth <= MAX_DEPTH + 1
    ensures CutIsHarmless(document, Nest(levels), {}, depth, known) <==> depth + levels <= MAX_DEPTH
    decreases levels
  {
    if levels > 0 && depth <= MAX_DEPTH {
      assert Nest(levels).fields["child"] == Nest(levels - 1);
      NestHasNoReferences(levels - 1);
      NestHarmless(document, levels - 1, depth + 1, known);
    }
  }

  /** The limit is tight: a schema without any reference survives 30 levels of nesting and no more. */
  lemma {:induction false} DepthLimitIsTight(document: map<string, Json>, levels: nat)
    ensures Resolve(document, Nest(levels)) == Meaning(document, Nest(levels)) <==> levels <= 30
  {
    var known := References(Obj(document)) + References(Nest(levels));
    NestHarmless(document, levels, 0, known);
    DepthLimitExactly(document, Nest(levels), {}, 0, known);
  }
}
