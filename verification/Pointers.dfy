/** Local reference lookup (`_local_ref`): JSON Pointer evaluation restricted to mappings,
    RFC 6901 sections 3 and 4. */
module Pointers {
  import opened JsonValues
  import opened Strings

  predicate IsLocalReference(reference: string) {
    "#/" <= reference
  }

  function Unescape(part: string): string {
    Replace(Replace(part, "~1", "/"), "~0", "~")
  }

  /** One pass over the parts of a pointer: anything but an existing member of a mapping
      ends the walk with the empty mapping. */
  function Walk(current: Json, parts: seq<string>): Json
    decreases |parts|
  {
    if parts == [] then current
    else
      var key := Unescape(parts[0]);
      if current.Obj? && key in current.fields then Walk(current.fields[key], parts[1..])
      else EMPTY
  }

  function LocalRef(document: map<string, Json>, reference: string): map<string, Json> {
    if !IsLocalReference(reference) then map[]
    else
      var found := Walk(Obj(document), Split(reference[2..], '/'));
      if found.Obj? then found.fields else map[]
  }

  /** The keys lead through nested mappings to `target`. */
  predicate Leads(from: Json, keys: seq<string>, target: Json)
    decreases |keys|
  {
    if keys == [] then from == target
    else from.Obj? && keys[0] in from.fields && Leads(from.fields[keys[0]], keys[1..], target)
  }

  function UnescapeAll(parts: seq<string>): seq<string> {
    seq(|parts|, i requires 0 <= i < |parts| => Unescape(parts[i]))
  }

  /** The keys a local reference lists. */
  function KeysOf(reference: string): seq<string>
    requires "#/" <= reference
  {
    UnescapeAll(Split(reference[2..], '/'))
  }

  /** What a reference stands for: the mapping its keys lead to, and nothing if they lead to
      something else or nowhere, or if it is not a local reference. */
  ghost predicate StandsFor(document: map<string, Json>, reference: string, found: map<string, Json>) {
    if !("#/" <= reference) then found == map[]
    else
      && (forall target: map<string, Json> ::
            Leads(Obj(document), KeysOf(reference), Obj(target)) ==> found == target)
      && ((forall target: map<string, Json> :: !Leads(Obj(document), KeysOf(reference), Obj(target)))
          ==> found == map[])
  }

  lemma {:induction false} WalkLeads(from: Json, parts: seq<string>, target: Json)
    ensures Leads(from, UnescapeAll(parts), target) ==> Walk(from, parts) == target
    ensures Walk(from, parts) == target && target != EMPTY ==> Leads(from, UnescapeAll(parts), target)
    decreases |parts|
  {
    if parts != [] {
      var key := Unescape(parts[0]);
      assert UnescapeAll(parts)[1..] == UnescapeAll(parts[1..]);
      if from.Obj? && key in from.fields {
        WalkLeads(from.fields[key], parts[1..], target);
      }
    }
  }

  /** The lookup finds what the reference stands for, whatever the document and the reference. */
  lemma {:induction false} LocalRefStandsFor(document: map<string, Json>, reference: string)
    ensures StandsFor(document, reference, LocalRef(document, reference))
  {
    if "#/" <= reference {
      var parts := Split(reference[2..], '/');
      forall target: map<string, Json> ensures
        Leads(Obj(document), KeysOf(reference), Obj(target)) ==> LocalRef(document, reference) == target {
        WalkLeads(Obj(document), parts, Obj(target));
      }
      WalkLeads(Obj(document), parts, Walk(Obj(document), parts));
    }
  }

  /** The lookup as it is written: a variable moved down the document. */
  method FindLocalRef(document: map<string, Json>, reference: string) returns (found: map<string, Json>)
    ensures found == LocalRef(document, reference) && StandsFor(document, reference, found)
  {
    LocalRefStandsFor(document, reference);
    if !IsLocalReference(reference) {
      return map[];
    }
    var parts := Split(reference[2..], '/');
    var current := Obj(document);
    for i := 0 to |parts|
      invariant Walk(Obj(document), parts) == Walk(current, parts[i..])
    {
      var part := Replace(parts[i], "~1", "/");
      part := Replace(part, "~0", "~");
      assert parts[i..][0] == parts[i] && parts[i..][1..] == parts[i + 1..];
      if !current.Obj? || part !in current.fields {
        return map[];
      }
      current := current.fields[part];
    }
    assert parts[|parts|..] == [];
    found := if current.Obj? then current.fields else map[];
  }

  // ---------- the pointer that names a path of keys ----------

  /** RFC 6901 section 3: `~` is written `~0`, then `/` is written `~1`. */
  function Escape(key: string): string {
    Replace(Replace(key, "~", "~0"), "/", "~1")
  }

  function EscapeAll(keys: seq<string>): seq<string> {
    seq(|keys|, i requires 0 <= i < |keys| => Escape(keys[i]))
  }

  function PointerTo(keys: seq<string>): string {
    "#/" + Join(EscapeAll(keys), '/')
  }

  /** Evaluating the pointer to a mapping returns that mapping, whatever characters its keys contain. */
  lemma {:induction false} PointerRoundTrip(document: map<string, Json>, keys: seq<string>, target: map<string, Json>)
    requires keys != []
    requires Leads(Obj(document), keys, Obj(target))
    ensures LocalRef(document, PointerTo(keys)) == target
  {
    var parts := EscapeAll(keys);
    forall p | p in parts ensures '/' !in p {
      var i :| 0 <= i < |parts| && parts[i] == p;
      EscapeHasNoSlash(keys[i]);
    }
    SplitJoin(parts, '/');
    assert PointerTo(keys)[2..] == Join(parts, '/');
    WalkEscaped(Obj(document), keys, Obj(target));
  }

  /** Two different key paths never share a pointer. */
  lemma {:induction false} PointerInjective(keys: seq<string>, other: seq<string>)
    requires keys != [] && other != []
    requires PointerTo(keys) == PointerTo(other)
    ensures keys == other
  {
    forall k: string ensures '/' !in Escape(k) && Unescape(Escape(k)) == k {
      EscapeHasNoSlash(k);
      UnescapeEscape(k);
    }
    assert PointerTo(keys)[2..] == Join(EscapeAll(keys), '/');
    assert PointerTo(other)[2..] == Join(EscapeAll(other), '/');
    SplitJoin(EscapeAll(keys), '/');
    SplitJoin(EscapeAll(other), '/');
    assert EscapeAll(keys) == EscapeAll(other);
    forall i | 0 <= i < |keys| ensures keys[i] == other[i] {
      assert Unescape(EscapeAll(keys)[i]) == Unescape(EscapeAll(other)[i]);
    }
  }

  lemma {:induction false} WalkEscaped(from: Json, keys: seq<string>, target: Json)
    requires Leads(from, keys, target)
    ensures Walk(from, EscapeAll(keys)) == target
    decreases |keys|
  {
    if keys != [] {
      UnescapeEscape(keys[0]);
      assert EscapeAll(keys)[1..] == EscapeAll(keys[1..]);
      WalkEscaped(from.fields[keys[0]], keys[1..], target);
    }
  }

  lemma {:induction false} UnescapeEscape(key: string)
    ensures Unescape(Escape(key)) == key
  {
    var tildes := Replace(key, "~", "~0");
    TildesHaveNoTildeOne(key);
    SlashesBack(tildes);
    TildesBack(key);
  }

  /** After the first pass every `~` is followed by `0`. */
  predicate EveryTildeZero(s: string) {
    forall i :: 0 <= i < |s| && s[i] == '~' ==> i + 1 < |s| && s[i + 1] == '0'
  }

  lemma {:induction false} TildesHaveNoTildeOne(key: string)
    ensures EveryTildeZero(Replace(key, "~", "~0"))
  {
    if key != "" {
      TildesHaveNoTildeOne(key[1..]);
      if "~" <= key {
        assert key[|"~"|..] == key[1..];
      }
    }
  }

  lemma {:induction false} TildesBack(key: string)
    ensures Replace(Replace(key, "~", "~0"), "~0", "~") == key
    decreases |key|
  {
    if key != "" {
      TildesBack(key[1..]);
      var rest := Replace(key[1..], "~", "~0");
      if "~" <= key {
        assert key[|"~"|..] == key[1..];
        assert ("~0" + rest)[|"~0"|..] == rest;
        assert "~0" <= "~0" + rest;
        assert key == "~" + key[1..];
      } else {
        assert ([key[0]] + rest)[1..] == rest;
        assert key == [key[0]] + key[1..];
      }
    }
  }

  lemma {:induction false} SlashesBack(s: string)
    requires EveryTildeZero(s)
    ensures Replace(Replace(s, "/", "~1"), "~1", "/") == s
    decreases |s|
  {
    if s != "" {
      assert EveryTildeZero(s[1..]) by {
        forall i | 0 <= i < |s[1..]| && s[1..][i] == '~' ensures i + 1 < |s[1..]| && s[1..][i + 1] == '0' {
          assert s[i + 1] == '~';
        }
      }
      SlashesBack(s[1..]);
      var rest := Replace(s[1..], "/", "~1");
      if "/" <= s {
        assert s[|"/"|..] == s[1..];
        assert ("~1" + rest)[|"~1"|..] == rest;
        assert "~1" <= "~1" + rest;
        assert s == "/" + s[1..];
      } else {
        assert s == [s[0]] + s[1..];
        assert ([s[0]] + rest)[1..] == rest;
      }
    }
  }

  lemma {:induction false} EscapeHasNoSlash(key: string)
    ensures '/' !in Escape(key)
  {
    NoSlashLeft(Replace(key, "~", "~0"));
  }

  lemma {:induction false} NoSlashLeft(s: string)
    ensures '/' !in Replace(s, "/", "~1")
    decreases |s|
  {
    if s != "" {
      NoSlashLeft(s[1..]);
      if "/" <= s {
        assert s[|"/"|..] == s[1..];
      } else {
        assert s[0] != '/';
      }
    }
  }
}
