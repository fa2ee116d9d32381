/** What inlining a reference means when the reference graph has no cycle, and when the
    resolver computes it. */
module Inlining {
  import opened JsonValues
  import opened Pointers
  import opened Resolver

  /** `rank` falls along every edge from a reference to the references inside its target. */
  ghost predicate Acyclic(document: map<string, Json>, rank: map<string, nat>) {
    forall reference, inner ::
      reference in rank && inner in References(Obj(LocalRef(document, reference)))
      ==> inner in rank && rank[inner] < rank[reference]
  }

  ghost predicate Below(rank: map<string, nat>, value: Json, bound: nat) {
    forall reference :: reference in References(value) ==> reference in rank && rank[reference] < bound
  }

  /** Plain inlining, written without `seen` or depth: a reference stands for the inlined
      target, overridden by the inlined members written beside it. */
  ghost function Inline(document: map<string, Json>, value: Json, rank: map<string, nat>, bound: nat): (r: Json)
    requires Acyclic(document, rank) && Below(rank, value, bound)
    ensures value.Obj? ==> r.Obj?
    decreases bound, value
  {
    match value
    case Obj(fields) =>
      (match Reference(fields)
       case Some(reference) =>
         assert reference in References(value);
         var target := Inline(document, Obj(LocalRef(document, reference)), rank, rank[reference]);
         Obj(target.fields + map key | key in fields && key != "$ref" :: Inline(document, fields[key], rank, bound))
       case None =>
         Obj(map key | key in fields :: Inline(document, fields[key], rank, bound)))
    case Arr(items) =>
      Arr(seq(|items|, i requires 0 <= i < |items| => Inline(document, items[i], rank, bound)))
    case _ => value
  }

  /** Inlining the members is the same for both bounds. */
  ghost predicate MembersAlike(document: map<string, Json>, fields: map<string, Json>, rank: map<string, nat>,
        bound: nat, other: nat)
    requires Acyclic(document, rank)
  {
    forall key | key in fields ::
      && Below(rank, fields[key], bound) && Below(rank, fields[key], other)
      && Inline(document, fields[key], rank, bound) == Inline(document, fields[key], rank, other)
  }

  lemma {:induction false} SiblingsAnyBound(document: map<string, Json>, fields: map<string, Json>,
        rank: map<string, nat>, bound: nat, other: nat)
    requires Acyclic(document, rank) && Below(rank, Obj(fields), bound) && Below(rank, Obj(fields), other)
    requires MembersAlike(document, fields, rank, bound, other) && Reference(fields).Some?
    ensures Inline(document, Obj(fields), rank, bound) == Inline(document, Obj(fields), rank, other)
  {
    assert Reference(fields).value in References(Obj(fields));
    assert (map key | key in fields && key != "$ref" :: Inline(document, fields[key], rank, bound))
        == (map key | key in fields && key != "$ref" :: Inline(document, fields[key], rank, other));
  }

  lemma {:induction false} MembersAnyBound(document: map<string, Json>, fields: map<string, Json>,
        rank: map<string, nat>, bound: nat, other: nat)
    requires Acyclic(document, rank) && Below(rank, Obj(fields), bound) && Below(rank, Obj(fields), other)
    requires MembersAlike(document, fields, rank, bound, other)
    ensures Inline(document, Obj(fields), rank, bound) == Inline(document, Obj(fields), rank, other)
  {
    if Reference(fields).Some? {
      SiblingsAnyBound(document, fields, rank, bound, other);
    } else {
      assert (map key | key in fields :: Inline(document, fields[key], rank, bound))
          == (map key | key in fields :: Inline(document, fields[key], rank, other));
    }
  }

  /** The bound only serves termination. */
  lemma {:induction false} InlineAnyBound(document: map<string, Json>, value: Json, rank: map<string, nat>, bound: nat,
        other: nat)
    requires Acyclic(document, rank) && Below(rank, value, bound) && Below(rank, value, other)
    ensures Inline(document, value, rank, bound) == Inline(document, value, rank, other)
    decreases value
  {
    match value
    case Obj(fields) =>
      forall key | key in fields
        ensures Below(rank, fields[key], bound) && Below(rank, fields[key], other)
        ensures Inline(document, fields[key], rank, bound) == Inline(document, fields[key], rank, other)
      {
        ChildBelow(rank, fields, key, bound);
        ChildBelow(rank, fields, key, other);
        InlineAnyBound(document, fields[key], rank, bound, other);
      }
      MembersAnyBound(document, fields, rank, bound, other);
    case Arr(items) =>
      forall i | 0 <= i < |items|
        ensures Inline(document, items[i], rank, bound) == Inline(document, items[i], rank, other)
      {
        InlineAnyBound(document, items[i], rank, bound, other);
      }
    case _ =>
  }

  lemma {:induction false} MergeBelow(document: map<string, Json>, fields: map<string, Json>, reference: string,
        rank: map<string, nat>, bound: nat)
    requires Acyclic(document, rank) && Below(rank, Obj(fields), bound) && Reference(fields) == Some(reference)
    ensures Below(rank, Obj(Merge(document, fields, reference)), bound)
  {
    assert reference in References(Obj(fields));
    MergeKeepsReferences(document, fields, reference);
  }

  lemma {:induction false} ChildBelow(rank: map<string, nat>, fields: map<string, Json>, key: string, bound: nat)
    requires Below(rank, Obj(fields), bound) && key in fields
    ensures Below(rank, fields[key], bound)
  {
    assert References(fields[key]) <= References(Obj(fields));
  }

  /** The inlined members of a mapping, its `$ref` left out. */
  ghost function Siblings(document: map<string, Json>, fields: map<string, Json>, rank: map<string, nat>,
        bound: nat): (r: map<string, Json>)
    requires Acyclic(document, rank) && Below(rank, Obj(fields), bound)
    ensures r.Keys == fields.Keys - {"$ref"}
  {
    map key | key in fields && key != "$ref" ::
        (ChildBelow(rank, fields, key, bound); Inline(document, fields[key], rank, bound))
  }

  /** What the `$ref` member contributes: the inlined target, or the member itself when it is no local reference. */
  ghost function Base(document: map<string, Json>, fields: map<string, Json>, rank: map<string, nat>,
        bound: nat): map<string, Json>
    requires Acyclic(document, rank) && Below(rank, Obj(fields), bound)
  {
    match Reference(fields)
    case Some(reference) =>
      assert reference in References(Obj(fields));
      Inline(document, Obj(LocalRef(document, reference)), rank, rank[reference]).fields
    case None =>
      if "$ref" in fields then (ChildBelow(rank, fields, "$ref",
          bound); map["$ref" := Inline(document, fields["$ref"], rank, bound)])
      else map[]
  }

  lemma {:induction false} ReferenceSplits(document: map<string, Json>, fields: map<string, Json>,
        rank: map<string, nat>, bound: nat)
    requires Acyclic(document, rank) && Below(rank, Obj(fields), bound) && Reference(fields).Some?
    requires forall key | key in fields :: Below(rank, fields[key], bound)
    ensures Inline(document, Obj(fields), rank, bound).fields
         == Base(document, fields, rank, bound) + Siblings(document, fields, rank, bound)
  {
    assert Reference(fields).value in References(Obj(fields));
    assert Siblings(document, fields, rank, bound)
        == map key | key in fields && key != "$ref" :: Inline(document, fields[key], rank, bound);
  }

  lemma {:induction false} MapSplits(whole: map<string, Json>, first: map<string, Json>, rest: map<string, Json>)
    requires first == if "$ref" in whole then map["$ref" := whole["$ref"]] else map[]
    requires rest.Keys == whole.Keys - {"$ref"} && forall key | key in rest :: rest[key] == whole[key]
    ensures whole == first + rest
  {
  }

  lemma {:induction false} MembersSplit(document: map<string, Json>, fields: map<string, Json>, rank: map<string, nat>,
        bound: nat)
    requires Acyclic(document, rank) && Below(rank, Obj(fields), bound) && Reference(fields).None?
    requires forall key | key in fields :: Below(rank, fields[key], bound)
    ensures Inline(document, Obj(fields), rank, bound).fields
         == Base(document, fields, rank, bound) + Siblings(document, fields, rank, bound)
  {
    var whole := map key | key in fields :: Inline(document, fields[key], rank, bound);
    assert Inline(document, Obj(fields), rank, bound) == Obj(whole);
    MapSplits(whole, Base(document, fields, rank, bound), Siblings(document, fields, rank, bound));
  }

  lemma {:induction false} InlineSplits(document: map<string, Json>, fields: map<string, Json>, rank: map<string, nat>,
        bound: nat)
    requires Acyclic(document, rank) && Below(rank, Obj(fields), bound)
    ensures Inline(document, Obj(fields), rank, bound).fields
         == Base(document, fields, rank, bound) + Siblings(document, fields, rank, bound)
  {
    forall key | key in fields ensures Below(rank, fields[key], bound) {
      ChildBelow(rank, fields, key, bound);
    }
    if Reference(fields).Some? {
      ReferenceSplits(document, fields, rank, bound);
    } else {
      MembersSplit(document, fields, rank, bound);
    }
  }

  lemma {:induction false} SiblingsOfMerge(document: map<string, Json>, target: map<string, Json>,
        fields: map<string, Json>, rank: map<string, nat>, bound: nat)
    requires Acyclic(document, rank) && Below(rank, Obj(target), bound) && Below(rank, Obj(fields), bound)
    requires Below(rank, Obj(target + (fields - {"$ref"})), bound)
    ensures Siblings(document, target + (fields - {"$ref"}), rank, bound)
         == Siblings(document, target, rank, bound) + Siblings(document, fields, rank, bound)
  {
    var merged := target + (fields - {"$ref"});
    forall key | key in Siblings(document, merged, rank, bound)
      ensures Siblings(document, merged, rank, bound)[key]
           == (Siblings(document, target, rank, bound) + Siblings(document, fields, rank, bound))[key]
    {
      assert merged[key] == if key in fields then fields[key] else target[key];
    }
  }

  /** Inlining commutes with the resolver's merge of the target and the siblings. */
  lemma {:induction false} InlineMerge(document: map<string, Json>, fields: map<string, Json>, reference: string,
        rank: map<string, nat>, bound: nat)
    requires Acyclic(document, rank) && Below(rank, Obj(fields), bound) && Reference(fields) == Some(reference)
    ensures Below(rank, Obj(Merge(document, fields, reference)), bound)
    ensures Inline(document, Obj(Merge(document, fields, reference)), rank, bound)
         == Inline(document, Obj(fields), rank, bound)
  {
    MergeBelow(document, fields, reference, rank, bound);
    var target := LocalRef(document, reference);
    TargetBelow(document, fields, reference, rank, bound);
    InlineSplits(document, Merge(document, fields, reference), rank, bound);
    BaseOfMerge(document, target, fields, rank, bound);
    SiblingsOfMerge(document, target, fields, rank, bound);
    InlineReference(document, fields, reference, rank, bound);
    MapUnionAssociates(Base(document, target, rank, bound), Siblings(document, target, rank, bound),
                       Siblings(document, fields, rank, bound));
  }

  lemma {:induction false} TargetBelow(document: map<string, Json>, fields: map<string, Json>, reference: string,
        rank: map<string, nat>, bound: nat)
    requires Acyclic(document, rank) && Below(rank, Obj(fields), bound) && Reference(fields) == Some(reference)
    ensures reference in rank && rank[reference] < bound
    ensures Below(rank, Obj(LocalRef(document, reference)), rank[reference])
    ensures Below(rank, Obj(LocalRef(document, reference)), bound)
  {
    assert reference in References(Obj(fields));
  }

  /** A mapping with a reference: the target's two parts, then the mapping's own siblings. */
  lemma {:induction false} InlineReference(document: map<string, Json>, fields: map<string, Json>, reference: string,
        rank: map<string, nat>, bound: nat)
    requires Acyclic(document, rank) && Below(rank, Obj(fields), bound) && Reference(fields) == Some(reference)
    requires Below(rank, Obj(LocalRef(document, reference)), bound)
    ensures Inline(document, Obj(fields), rank, bound).fields
         == (Base(document, LocalRef(document, reference), rank, bound)
            + Siblings(document, LocalRef(document, reference), rank, bound))
            + Siblings(document, fields, rank, bound)
  {
    TargetBelow(document, fields, reference, rank, bound);
    InlineAnyBound(document, Obj(LocalRef(document, reference)), rank, rank[reference], bound);
    InlineSplits(document, LocalRef(document, reference), rank, bound);
    InlineSplits(document, fields, rank, bound);
  }

  lemma {:induction false} MapUnionAssociates(a: map<string, Json>, b: map<string, Json>, c: map<string, Json>)
    ensures a + (b + c) == (a + b) + c
  {
  }

  lemma {:induction false} BaseOfMerge(document: map<string, Json>, target: map<string, Json>,
        fields: map<string, Json>, rank: map<string, nat>, bound: nat)
    requires Acyclic(document, rank) && Below(rank, Obj(target), bound)
    requires Below(rank, Obj(target + (fields - {"$ref"})), bound)
    ensures Base(document, target + (fields - {"$ref"}), rank, bound) == Base(document, target, rank, bound)
  {
    var merged := target + (fields - {"$ref"});
    assert "$ref" in merged <==> "$ref" in target;
    assert Reference(merged) == Reference(target);
  }

  // ---------- the `seen` cut against plain inlining ----------

  /** The value inlines to the empty mapping. */
  ghost predicate Hollow(document: map<string, Json>, value: Json, rank: map<string, nat>, bound: nat)
    requires Acyclic(document, rank) && Below(rank, value, bound)
    decreases bound
  {
    value.Obj? &&
    match Reference(value.fields)
    case Some(reference) =>
      TargetBelow(document, value.fields, reference, rank, bound);
      value.fields.Keys == {"$ref"} && Hollow(document, Obj(LocalRef(document, reference)), rank, rank[reference])
    case None => value.fields == map[]
  }

  lemma {:induction false} HollowExactly(document: map<string, Json>, value: Json, rank: map<string, nat>, bound: nat)
    requires Acyclic(document, rank) && Below(rank, value, bound)
    ensures Hollow(document, value, rank, bound) <==> Inline(document, value, rank, bound) == EMPTY
    decreases bound
  {
    if value.Obj? {
      InlineSplits(document, value.fields, rank, bound);
      var siblings := Siblings(document, value.fields, rank, bound);
      var base := Base(document, value.fields, rank, bound);
      assert siblings == map[] <==> siblings.Keys == {};
      UnionEmpty(base, siblings);
      match Reference(value.fields)
      case Some(reference) =>
        TargetBelow(document, value.fields, reference, rank, bound);
        HollowExactly(document, Obj(LocalRef(document, reference)), rank, rank[reference]);
        assert siblings.Keys == {} <==> value.fields.Keys == {"$ref"};
      case None =>
        assert value.fields == map[] <==> value.fields.Keys == {};
    }
  }

  lemma {:induction false} UnionEmpty(a: map<string, Json>, b: map<string, Json>)
    ensures a + b == map[] <==> a == map[] && b == map[]
  {
    assert (a + b).Keys == a.Keys + b.Keys;
    assert a == map[] <==> a.Keys == {};
    assert b == map[] <==> b.Keys == {};
    assert a + b == map[] <==> (a + b).Keys == {};
  }

  /** Wherever the guard `reference in seen` fires, the reference would have inlined to nothing. */
  ghost predicate SeenIsHarmless(document: map<string, Json>, value: Json, seen: set<string>, known: set<string>,
        rank: map<string, nat>, bound: nat)
    requires Knows(known, document, value)
    requires Acyclic(document, rank) && Below(rank, value, bound)
    decreases known - seen, value
  {
    match value
    case Obj(fields) =>
      (match Reference(fields)
       case Some(reference) =>
         if reference in seen then Hollow(document, value, rank, bound)
         else
           LocalRefKeepsReferences(document, reference);
           MergeKeepsReferences(document, fields, reference);
           MergeBelow(document, fields, reference, rank, bound);
           assert reference in known - seen;
           SeenIsHarmless(document, Obj(Merge(document, fields, reference)), seen + {reference}, known, rank, bound)
       case None =>
         forall key | key in fields ::
           (ChildBelow(rank, fields, key, bound); SeenIsHarmless(document, fields[key], seen, known, rank, bound)))
    case Arr(items) => forall i | 0 <= i < |items| :: SeenIsHarmless(document, items[i], seen, known, rank, bound)
    case _ => true
  }

  /** On acyclic references the cap-free resolver is plain inlining exactly when `seen` never
      cuts anything that would have inlined to something. */
  lemma {:induction false} SeenCutExactly(document: map<string, Json>, value: Json, seen: set<string>,
        known: set<string>, rank: map<string, nat>, bound: nat)
    requires Knows(known, document, value)
    requires Acyclic(document, rank) && Below(rank, value, bound)
    ensures ResolveFree(document, value, seen, known) == Inline(document, value, rank, bound)
       <==> SeenIsHarmless(document, value, seen, known, rank, bound)
    decreases known - seen, value
  {
    match value
    case Obj(fields) =>
      match Reference(fields) {
        case Some(reference) =>
          if reference in seen {
            HollowExactly(document, value, rank, bound);
          } else {
            LocalRefKeepsReferences(document, reference);
            MergeKeepsReferences(document, fields, reference);
            assert reference in known - seen;
            InlineMerge(document, fields, reference, rank, bound);
            SeenCutExactly(document, Obj(Merge(document, fields, reference)), seen + {reference}, known, rank, bound);
          }
        case None =>
          SeenCutMembers(document, fields, seen, known, rank, bound);
      }
    case Arr(items) =>
      var free := ResolveFree(document, value, seen, known).items;
      var plain := Inline(document, value, rank, bound).items;
      forall i | 0 <= i < |items|
        ensures free[i] == plain[i] <==> SeenIsHarmless(document, items[i], seen, known, rank, bound)
      {
        SeenCutExactly(document, items[i], seen, known, rank, bound);
      }
      assert free == plain <==> forall i | 0 <= i < |items| :: free[i] == plain[i];
    case _ =>
  }

  lemma {:induction false} SeenCutMembers(document: map<string, Json>, fields: map<string, Json>, seen: set<string>,
        known: set<string>, rank: map<string, nat>, bound: nat)
    requires Knows(known, document, Obj(fields)) && Reference(fields).None?
    requires Acyclic(document, rank) && Below(rank, Obj(fields), bound)
    ensures ResolveFree(document, Obj(fields), seen, known) == Inline(document, Obj(fields), rank, bound)
       <==> SeenIsHarmless(document, Obj(fields), seen, known, rank, bound)
    decreases known - seen, Obj(fields), 0
  {
    forall key | key in fields
      ensures Below(rank, fields[key], bound)
      ensures ResolveFree(document, fields[key], seen, known) == Inline(document, fields[key], rank, bound)
         <==> SeenIsHarmless(document, fields[key], seen, known, rank, bound)
    {
      ChildBelow(rank, fields, key, bound);
      SeenCutExactly(document, fields[key], seen, known, rank, bound);
    }
    var free := map key | key in fields :: ResolveFree(document, fields[key], seen, known);
    var plain := map key | key in fields :: Inline(document, fields[key], rank, bound);
    assert ResolveFree(document, Obj(fields), seen, known) == Obj(free);
    assert Inline(document, Obj(fields), rank, bound) == Obj(plain);
    EqualPointwise(fields.Keys, free, plain);
  }

  lemma {:induction false} EqualPointwise(keys: set<string>, a: map<string, Json>, b: map<string, Json>)
    requires a.Keys == b.Keys == keys
    ensures a == b <==> forall key | key in keys :: a[key] == b[key]
  {
  }

  /** No mapping writes further references beside its own `$ref`. */
  ghost predicate BareReferences(value: Json) {
    match value
    case Obj(fields) =>
      if Reference(fields).Some?
      then forall key | key in fields && key != "$ref" :: References(fields[key]) == {}
      else forall key | key in fields :: BareReferences(fields[key])
    case Arr(items) => forall i | 0 <= i < |items| :: BareReferences(items[i])
    case _ => true
  }

  ghost predicate BareTargets(document: map<string, Json>, rank: map<string, nat>) {
    forall reference | reference in rank :: BareReferences(Obj(LocalRef(document, reference)))
  }

  ghost predicate BelowSeen(value: Json, seen: set<string>, rank: map<string, nat>) {
    forall inner, outer | inner in References(value) && outer in seen ::
      inner in rank && outer in rank && rank[inner] < rank[outer]
  }

  lemma {:induction false} ReferenceFreeIsBare(value: Json)
    requires References(value) == {}
    ensures BareReferences(value)
  {
    match value
    case Obj(fields) =>
      forall key | key in fields ensures BareReferences(fields[key]) {
        assert References(fields[key]) <= References(value);
        ReferenceFreeIsBare(fields[key]);
      }
    case Arr(items) =>
      forall i | 0 <= i < |items| ensures BareReferences(items[i]) {
        assert References(items[i]) <= References(value);
        ReferenceFreeIsBare(items[i]);
      }
    case _ =>
  }

  lemma {:induction false} BareMerge(document: map<string, Json>, fields: map<string, Json>, reference: string)
    requires Reference(fields) == Some(reference) && BareReferences(Obj(fields))
    requires BareReferences(Obj(LocalRef(document, reference)))
    ensures BareReferences(Obj(Merge(document, fields, reference)))
    ensures References(Obj(Merge(document, fields, reference))) <= References(Obj(LocalRef(document, reference)))
  {
    var target := LocalRef(document, reference);
    var merged := Merge(document, fields, reference);
    assert Reference(merged) == Reference(target);
    forall key | key in merged && (key != "$ref" || Reference(target).None?)
      ensures References(merged[key]) <= References(Obj(target))
      ensures Reference(target).Some? ==> References(merged[key]) == {}
      ensures Reference(target).None? ==> BareReferences(merged[key])
    {
      if key in fields && key != "$ref" {
        ReferenceFreeIsBare(fields[key]);
      } else {
        assert merged[key] == target[key];
      }
    }
  }

  lemma {:induction false} BelowSeenMerge(document: map<string, Json>, fields: map<string, Json>, reference: string,
        seen: set<string>, rank: map<string, nat>)
    requires Acyclic(document, rank) && reference in rank
    requires Reference(fields) == Some(reference) && BelowSeen(Obj(fields), seen, rank)
    requires References(Obj(Merge(document, fields, reference))) <= References(Obj(LocalRef(document, reference)))
    ensures reference !in seen
    ensures BelowSeen(Obj(Merge(document, fields, reference)), seen + {reference}, rank)
  {
    assert reference in References(Obj(fields));
    BelowOneMore(References(Obj(Merge(document, fields, reference))), seen, reference, rank);
  }

  lemma {:induction false} BelowOneMore(references: set<string>, seen: set<string>, reference: string,
        rank: map<string, nat>)
    requires reference in rank
    requires forall outer | outer in seen :: outer in rank && rank[reference] < rank[outer]
    requires forall inner | inner in references :: inner in rank && rank[inner] < rank[reference]
    ensures forall inner, outer | inner in references && outer in seen + {reference} ::
      inner in rank && outer in rank && rank[inner] < rank[outer]
  {
  }

  lemma {:induction false} BareIsHarmless(document: map<string, Json>, value: Json, seen: set<string>,
        known: set<string>, rank: map<string, nat>, bound: nat)
    requires Knows(known, document, value)
    requires Acyclic(document, rank) && Below(rank, value, bound)
    requires BareTargets(document, rank) && BareReferences(value) && BelowSeen(value, seen, rank)
    ensures SeenIsHarmless(document, value, seen, known, rank, bound)
    decreases known - seen, value
  {
    match value
    case Obj(fields) =>
      match Reference(fields) {
        case Some(reference) => BareReferenceIsHarmless(document, fields, reference, seen, known, rank, bound);
        case None => BareMembersAreHarmless(document, fields, seen, known, rank, bound);
      }
    case Arr(items) => BareItemsAreHarmless(document, items, seen, known, rank, bound);
    case _ =>
  }

  lemma {:induction false} BareItemsAreHarmless(document: map<string, Json>, items: seq<Json>, seen: set<string>,
        known: set<string>, rank: map<string, nat>, bound: nat)
    requires Knows(known, document, Arr(items))
    requires Acyclic(document, rank) && Below(rank, Arr(items), bound)
    requires BareTargets(document, rank) && BareReferences(Arr(items)) && BelowSeen(Arr(items), seen, rank)
    ensures SeenIsHarmless(document, Arr(items), seen, known, rank, bound)
    decreases known - seen, Arr(items), 0
  {
    forall i | 0 <= i < |items|
      ensures Below(rank, items[i], bound) && SeenIsHarmless(document, items[i], seen, known, rank, bound)
    {
      assert References(items[i]) <= References(Arr(items));
      BareIsHarmless(document, items[i], seen, known, rank, bound);
    }
  }

  lemma {:induction false} BareReferenceIsHarmless(document: map<string, Json>, fields: map<string, Json>,
        reference: string, seen: set<string>, known: set<string>, rank: map<string, nat>, bound: nat)
    requires Knows(known, document, Obj(fields)) && Reference(fields) == Some(reference)
    requires Acyclic(document, rank) && Below(rank, Obj(fields), bound)
    requires BareTargets(document, rank) && BareReferences(Obj(fields)) && BelowSeen(Obj(fields), seen, rank)
    ensures SeenIsHarmless(document, Obj(fields), seen, known, rank, bound)
    decreases known - seen, Obj(fields), 0
  {
    TargetBelow(document, fields, reference, rank, bound);
    LocalRefKeepsReferences(document, reference);
    MergeKeepsReferences(document, fields, reference);
    MergeBelow(document, fields, reference, rank, bound);
    BareMerge(document, fields, reference);
    BelowSeenMerge(document, fields, reference, seen, rank);
    assert reference in References(Obj(fields));
    BareIsHarmless(document, Obj(Merge(document, fields, reference)), seen + {reference}, known, rank, bound);
  }

  lemma {:induction false} BareMembersAreHarmless(document: map<string, Json>, fields: map<string, Json>,
        seen: set<string>, known: set<string>, rank: map<string, nat>, bound: nat)
    requires Knows(known, document, Obj(fields)) && Reference(fields).None?
    requires Acyclic(document, rank) && Below(rank, Obj(fields), bound)
    requires BareTargets(document, rank) && BareReferences(Obj(fields)) && BelowSeen(Obj(fields), seen, rank)
    ensures SeenIsHarmless(document, Obj(fields), seen, known, rank, bound)
    decreases known - seen, Obj(fields), 0
  {
    forall key | key in fields
      ensures Below(rank, fields[key], bound) && SeenIsHarmless(document, fields[key], seen, known, rank, bound)
    {
      ChildBelow(rank, fields, key, bound);
      assert References(fields[key]) <= References(Obj(fields));
      BareIsHarmless(document, fields[key], seen, known, rank, bound);
    }
  }

  /** Acyclic references, each written without further references beside it: the resolver is
      plain inlining. */
  lemma {:induction false} ResolveIsInlining(document: map<string, Json>, value: Json, rank: map<string, nat>,
        bound: nat)
    requires Acyclic(document, rank) && Below(rank, value, bound)
    requires BareTargets(document, rank) && BareReferences(value)
    requires StaysWithin(document, value, {}, 0)
    ensures Resolve(document, value) == Inline(document, value, rank, bound)
  {
    var known := References(Obj(document)) + References(value);
    BareIsHarmless(document, value, {}, known, rank, bound);
    SeenCutExactly(document, value, {}, known, rank, bound);
    ResolveMeansMeaning(document, value);
  }

  /** Acyclic references alone do not suffice: a sibling that repeats the reference of its own
      mapping resolves to the empty mapping. */
  lemma {:induction false} RepeatedBesideItself(document: map<string, Json>, reference: string, rank: map<string, nat>)
    requires IsLocalReference(reference)
    requires var target := LocalRef(document, reference);
             References(Obj(target)) == {} && target != map[]
    requires rank == map[reference := 0]
    ensures var bare := Obj(map["$ref" := Str(reference)]);
            var value := Obj(map["$ref" := Str(reference), "again" := bare]);
            && Acyclic(document, rank) && Below(rank, value, 1)
            && Meaning(document, value) == Obj(LocalRef(document, reference)["again" := EMPTY])
            && Inline(document, value, rank, 1)
               == Obj(LocalRef(document, reference)["again" := Obj(LocalRef(document, reference))])
            && Meaning(document, value) != Inline(document, value, rank, 1)
  {
    var target := LocalRef(document, reference);
    var bare := Obj(map["$ref" := Str(reference)]);
    var fields := map["$ref" := Str(reference), "again" := bare];
    var value := Obj(fields);
    RepeatedReferences(reference);
    RepeatedIsCut(document, reference, References(Obj(document)) + References(value));
    RepeatedInlines(document, reference, rank);
    assert target["again" := EMPTY]["again"] != target["again" := Obj(target)]["again"];
  }

  lemma {:induction false} RepeatedReferences(reference: string)
    requires IsLocalReference(reference)
    ensures References(Obj(map["$ref" := Str(reference)])) == {reference}
    ensures References(Obj(map["$ref" := Str(reference), "again" := Obj(map["$ref" := Str(reference)])])) == {reference}
  {
    var bare := Obj(map["$ref" := Str(reference)]);
    assert References(bare) == {reference};
    assert References(Obj(map["$ref" := Str(reference), "again" := bare])) == {reference};
  }

  lemma {:induction false} RepeatedIsCut(document: map<string, Json>, reference: string, known: set<string>)
    requires IsLocalReference(reference) && References(Obj(document)) <= known && reference in known
    requires References(Obj(LocalRef(document, reference))) == {}
    ensures var value := Obj(map["$ref" := Str(reference), "again" := Obj(map["$ref" := Str(reference)])]);
            && Knows(known, document, value)
            && ResolveFree(document, value, {}, known) == Obj(LocalRef(document, reference)["again" := EMPTY])
  {
    var target := LocalRef(document, reference);
    var bare := Obj(map["$ref" := Str(reference)]);
    var fields := map["$ref" := Str(reference), "again" := bare];
    RepeatedReferences(reference);
    assert Merge(document, fields, reference) == target["again" := bare];
    MemberCut(document, target, bare, {reference}, known);
    assert {} + {reference} == {reference};
  }

  lemma {:induction false} MemberCut(document: map<string, Json>, target: map<string, Json>, bare: Json,
        seen: set<string>, known: set<string>)
    requires bare.Obj? && Reference(bare.fields).Some? && Reference(bare.fields).value in seen
    requires References(bare) <= known && References(Obj(document)) <= known && References(Obj(target)) == {}
    ensures Reference(target["again" := bare]).None?
    ensures Knows(known, document, Obj(target["again" := bare]))
    ensures ResolveFree(document, Obj(target["again" := bare]), seen, known) == Obj(target["again" := EMPTY])
  {
    var merged := target["again" := bare];
    assert Reference(target).None?;
    forall key | key in merged
      ensures References(merged[key]) <= known
      ensures ResolveFree(document, merged[key], seen, known) == target["again" := EMPTY][key]
    {
      if key != "again" {
        MemberKept(document, target, key, seen, known);
      }
    }
    var resolved := map key | key in merged :: ResolveFree(document, merged[key], seen, known);
    assert ResolveFree(document, Obj(merged), seen, known) == Obj(resolved);
    EqualPointwise(merged.Keys, resolved, target["again" := EMPTY]);
  }

  lemma {:induction false} MemberKept(document: map<string, Json>, target: map<string, Json>, key: string,
        seen: set<string>, known: set<string>)
    requires References(Obj(document)) <= known && References(Obj(target)) == {} && key in target
    ensures References(target[key]) == {}
    ensures ResolveFree(document, target[key], seen, known) == target[key]
  {
    assert References(target[key]) <= References(Obj(target));
    ResolveFreeIdentity(document, target[key], seen, known);
  }

  lemma {:induction false} RepeatedInlines(document: map<string, Json>, reference: string, rank: map<string, nat>)
    requires IsLocalReference(reference) && rank == map[reference := 0]
    requires References(Obj(LocalRef(document, reference))) == {}
    ensures var value := Obj(map["$ref" := Str(reference), "again" := Obj(map["$ref" := Str(reference)])]);
            && Acyclic(document, rank) && Below(rank, value, 1)
            && Inline(document, value, rank, 1)
               == Obj(LocalRef(document, reference)["again" := Obj(LocalRef(document, reference))])
  {
    var target := LocalRef(document, reference);
    var bare := Obj(map["$ref" := Str(reference)]);
    var fields := map["$ref" := Str(reference), "again" := bare];
    assert References(bare) == {reference};
    assert References(Obj(fields)) == {reference};
    BareInlines(document, reference, rank);
    InlineBeside(document, fields, reference, rank);
  }

  lemma {:induction false} InlineBeside(document: map<string, Json>, fields: map<string, Json>, reference: string,
        rank: map<string, nat>)
    requires Acyclic(document, rank) && Below(rank, Obj(fields), 1) && Reference(fields) == Some(reference)
    requires rank == map[reference := 0]
    requires Below(rank, Obj(LocalRef(document, reference)), 0)
    requires fields.Keys == {"$ref", "again"}
    requires Below(rank, fields["again"], 1)
      && Inline(document, fields["again"], rank, 1) == Obj(LocalRef(document, reference))
    requires Inline(document, Obj(LocalRef(document, reference)), rank, 0) == Obj(LocalRef(document, reference))
    ensures Inline(document, Obj(fields), rank, 1)
         == Obj(LocalRef(document, reference)["again" := Obj(LocalRef(document, reference))])
  {
    InlineSplits(document, fields, rank, 1);
    PartsBeside(document, fields, reference, rank);
  }

  lemma {:induction false} PartsBeside(document: map<string, Json>, fields: map<string, Json>, reference: string,
        rank: map<string, nat>)
    requires Acyclic(document, rank) && Below(rank, Obj(fields), 1) && Reference(fields) == Some(reference)
    requires rank == map[reference := 0] && fields.Keys == {"$ref", "again"}
    requires Below(rank, Obj(LocalRef(document, reference)), 0)
    requires Below(rank, fields["again"], 1)
      && Inline(document, fields["again"], rank, 1) == Obj(LocalRef(document, reference))
    requires Inline(document, Obj(LocalRef(document, reference)), rank, 0) == Obj(LocalRef(document, reference))
    ensures Base(document, fields, rank, 1) == LocalRef(document, reference)
    ensures Siblings(document, fields, rank, 1) == map["again" := Obj(LocalRef(document, reference))]
  {
  }

  lemma {:induction false} BareInlines(document: map<string, Json>, reference: string, rank: map<string, nat>)
    requires IsLocalReference(reference) && rank == map[reference := 0]
    requires References(Obj(LocalRef(document, reference))) == {}
    ensures var bare := Obj(map["$ref" := Str(reference)]);
            && Acyclic(document, rank) && Below(rank, bare, 1)
            && Inline(document, bare, rank, 1) == Obj(LocalRef(document, reference))
            && Inline(document, Obj(LocalRef(document, reference)), rank, 0) == Obj(LocalRef(document, reference))
  {
    var target := LocalRef(document, reference);
    var bare := Obj(map["$ref" := Str(reference)]);
    assert References(bare) == {reference};
    InlineIdentity(document, Obj(target), rank, 0);
    assert Siblings(document, bare.fields, rank, 1) == map[];
    InlineSplits(document, bare.fields, rank, 1);
  }

  lemma {:induction false} ResolveFreeIdentity(document: map<string, Json>, value: Json, seen: set<string>,
        known: set<string>)
    requires Knows(known, document, value) && References(value) == {}
    ensures ResolveFree(document, value, seen, known) == value
    decreases value
  {
    match value
    case Obj(fields) =>
      forall key | key in fields ensures ResolveFree(document, fields[key], seen, known) == fields[key] {
        assert References(fields[key]) <= References(value);
        ResolveFreeIdentity(document, fields[key], seen, known);
      }
      assert (map key | key in fields :: ResolveFree(document, fields[key], seen, known)) == fields;
    case Arr(items) =>
      forall i | 0 <= i < |items| ensures ResolveFree(document, items[i], seen, known) == items[i] {
        assert References(items[i]) <= References(value);
        ResolveFreeIdentity(document, items[i], seen, known);
      }
      assert seq(|items|, i requires 0 <= i < |items| => ResolveFree(document, items[i], seen, known)) == items;
    case _ =>
  }

  lemma {:induction false} InlineIdentity(document: map<string, Json>, value: Json, rank: map<string, nat>, bound: nat)
    requires Acyclic(document, rank) && References(value) == {}
    ensures Below(rank, value, bound) && Inline(document, value, rank, bound) == value
    decreases value
  {
    match value
    case Obj(fields) =>
      forall key | key in fields
        ensures Below(rank, fields[key], bound) && Inline(document, fields[key], rank, bound) == fields[key]
      {
        assert References(fields[key]) <= References(value);
        InlineIdentity(document, fields[key], rank, bound);
      }
      assert (map key | key in fields :: Inline(document, fields[key], rank, bound)) == fields;
    case Arr(items) =>
      forall i | 0 <= i < |items|
        ensures Below(rank, items[i], bound) && Inline(document, items[i], rank, bound) == items[i]
      {
        assert References(items[i]) <= References(value);
        InlineIdentity(document, items[i], rank, bound);
      }
      assert seq(|items|, i requires 0 <= i < |items| => Inline(document, items[i], rank, bound)) == items;
    case _ =>
  }

  /** One such document: `{"a": {"k": "v"}}` with the reference `#/a`. */
  lemma {:induction false} RepeatedBesideItselfExample()
    returns (document: map<string, Json>, value: Json, rank: map<string, nat>)
    ensures Acyclic(document, rank) && Below(rank, value, 1)
    ensures Meaning(document, value) != Inline(document, value, rank, 1)
  {
    var target := map["k" := Str("v")];
    document := map["a" := Obj(target)];
    var reference := PointerTo(["a"]);
    assert Leads(Obj(document), ["a"], Obj(target)) by {
      assert ["a"][1..] == [];
    }
    PointerRoundTrip(document, ["a"], target);
    assert References(Str("v")) == {};
    assert References(Obj(target)) == {};
    value := Obj(map["$ref" := Str(reference), "again" := Obj(map["$ref" := Str(reference)])]);
    rank := map[reference := 0];
    assert "k" in target;
    RepeatedBesideItself(document, reference, rank);
  }
}
