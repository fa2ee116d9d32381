/** Dropping empty report fields (`_compact`). */
module Compaction {
  import opened JsonValues

  /** `child in (None, "", [], {})`; false and zero are kept. */
  predicate Empty(value: Json) {
    value == Null || value == Str("") || value == Arr([]) || value == EMPTY
  }

  function Compact(value: Json): Json
    decreases value, 0
  {
    match value
    case Obj(fields) =>
      var kept := map key | key in fields && !Empty(Compact(fields[key])) :: Compact(fields[key]);
      Obj(kept)
    case Arr(items) => Arr(CompactItems(items))
    case _ => value
  }

  function CompactItems(items: seq<Json>): seq<Json>
    decreases items, 1
  {
    if items == [] then []
    else
      var first := Compact(items[0]);
      (if Empty(first) then [] else [first]) + CompactItems(items[1..])
  }

  /** No mapping or list inside has an empty member. */
  predicate IsCompact(value: Json) {
    match value
    case Obj(fields) => forall key | key in fields :: !Empty(fields[key]) && IsCompact(fields[key])
    case Arr(items) => forall i | 0 <= i < |items| :: !Empty(items[i]) && IsCompact(items[i])
    case _ => true
  }

  lemma {:induction false} CompactIsCompact(value: Json)
    ensures IsCompact(Compact(value))
    decreases value, 0
  {
    match value
    case Obj(fields) =>
      forall key | key in fields ensures IsCompact(Compact(fields[key])) {
        CompactIsCompact(fields[key]);
      }
    case Arr(items) => CompactItemsAreCompact(items);
    case _ =>
  }

  lemma {:induction false} CompactItemsAreCompact(items: seq<Json>)
    ensures forall i | 0 <= i < |CompactItems(items)| ::
      !Empty(CompactItems(items)[i]) && IsCompact(CompactItems(items)[i])
    decreases items, 1
  {
    if items != [] {
      CompactIsCompact(items[0]);
      CompactItemsAreCompact(items[1..]);
    }
  }

  /** Compact values, and only those, are left alone. */
  lemma {:induction false} CompactKeepsCompact(value: Json)
    ensures IsCompact(value) <==> Compact(value) == value
    decreases value, 0
  {
    CompactIsCompact(value);
    if IsCompact(value) {
      match value
      case Obj(fields) =>
        forall key | key in fields ensures Compact(fields[key]) == fields[key] {
          CompactKeepsCompact(fields[key]);
        }
      case Arr(items) => CompactItemsKept(items);
      case _ =>
    }
  }

  lemma {:induction false} CompactItemsKept(items: seq<Json>)
    requires forall i | 0 <= i < |items| :: !Empty(items[i]) && IsCompact(items[i])
    ensures CompactItems(items) == items
    decreases items, 1
  {
    if items != [] {
      CompactKeepsCompact(items[0]);
      CompactItemsKept(items[1..]);
      assert items == [items[0]] + items[1..];
    }
  }

  // ---------- what is kept ----------

  /** The leaf lies below the keys of the path; an absent key stands for any position in a list. */
  ghost predicate Holds(value: Json, path: seq<Option<string>>, leaf: Json)
    decreases |path|
  {
    if path == [] then value == leaf
    else
      match value
      case Obj(fields) => path[0].Some? && path[0].value in fields && Holds(fields[path[0].value], path[1..], leaf)
      case Arr(items) => path[0].None? && exists i :: 0 <= i < |items| && Holds(items[i], path[1..], leaf)
      case _ => false
  }

  /** A boolean, a number, or a text that is not empty. */
  predicate Meaningful(leaf: Json) {
    leaf.Bool? || leaf.Num? || (leaf.Str? && leaf.s != "")
  }

  lemma {:induction false} HoldsNonEmpty(value: Json, path: seq<Option<string>>, leaf: Json)
    requires Holds(value, path, leaf) && Meaningful(leaf)
    ensures value != Null && value != Str("") && value != Arr([]) && value != Obj(map[])
  {
  }

  lemma {:induction false} CompactItemsMembers(items: seq<Json>, x: Json)
    ensures x in CompactItems(items) <==> !Empty(x) && exists i :: 0 <= i < |items| && Compact(items[i]) == x
  {
    if items != [] {
      CompactItemsMembers(items[1..], x);
      if i :| 0 <= i < |items| && Compact(items[i]) == x {
        assert i > 0 ==> items[1..][i - 1] == items[i];
      }
      if j :| 0 <= j < |items[1..]| && Compact(items[1..][j]) == x {
        assert items[j + 1] == items[1..][j];
      }
    }
  }

  /** Compacting loses no meaningful leaf and invents none; each stays below the same keys. */
  lemma {:induction false} LeavesKept(value: Json, path: seq<Option<string>>, leaf: Json)
    requires Meaningful(leaf)
    ensures Holds(Compact(value), path, leaf) <==> Holds(value, path, leaf)
    decreases |path|, 1
  {
    if path != [] {
      match value
      case Obj(fields) =>
        if path[0].Some? && path[0].value in fields {
          MemberKept(fields[path[0].value], path[1..], leaf);
        }
      case Arr(items) => ItemsKept(items, path, leaf);
      case _ =>
    }
  }

  lemma {:induction false} MemberKept(child: Json, path: seq<Option<string>>, leaf: Json)
    requires Meaningful(leaf)
    ensures Holds(Compact(child), path, leaf) <==> Holds(child, path, leaf)
    ensures Holds(child, path, leaf) ==> !Empty(Compact(child))
    decreases |path|, 2
  {
    LeavesKept(child, path, leaf);
    if Holds(Compact(child), path, leaf) {
      HoldsNonEmpty(Compact(child), path, leaf);
    }
  }

  lemma {:induction false} ItemsKept(items: seq<Json>, path: seq<Option<string>>, leaf: Json)
    requires Meaningful(leaf) && path != []
    ensures Holds(Arr(CompactItems(items)), path, leaf) <==> Holds(Arr(items), path, leaf)
    decreases |path|, 0
  {
    var kept := CompactItems(items);
    if path[0].None? {
      if i :| 0 <= i < |items| && Holds(items[i], path[1..], leaf) {
        MemberKept(items[i], path[1..], leaf);
        CompactItemsMembers(items, Compact(items[i]));
      }
      if j :| 0 <= j < |kept| && Holds(kept[j], path[1..], leaf) {
        CompactItemsMembers(items, kept[j]);
        var i :| 0 <= i < |items| && Compact(items[i]) == kept[j];
        MemberKept(items[i], path[1..], leaf);
      }
    }
  }

  /** In lists the items that are kept stay in order, each as often as it occurs. */
  lemma {:induction false} CompactItemsAppend(items: seq<Json>, more: seq<Json>)
    ensures CompactItems(items + more) == CompactItems(items) + CompactItems(more)
    ensures CompactItems([]) == []
    ensures |items| == 1 ==>
      CompactItems(items)
      == if Compact(items[0]) in {Null, Str(""), Arr([]), Obj(map[])} then [] else [Compact(items[0])]
  {
    if items == [] {
      assert items + more == more;
    } else {
      assert (items + more)[1..] == items[1..] + more;
      CompactItemsAppend(items[1..], more);
      assert |items| == 1 ==> CompactItems(items[1..]) == [];
    }
  }

  /** Compacting twice is compacting once. */
  lemma {:induction false} CompactIdempotent(value: Json)
    ensures Compact(Compact(value)) == Compact(value)
  {
    CompactIsCompact(value);
    CompactKeepsCompact(Compact(value));
  }
}
