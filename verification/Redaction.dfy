/** Removing credentials from structured data (`redact`): secret keys lose their values, and
    `Bearer` and `Basic` credentials inside strings are blanked. */
module Redaction {
  import opened JsonValues

  /** Unicode's word and space characters, of which only these facts matter. */
  datatype Alphabet = Alphabet(word: char -> bool, space: char -> bool)

  ghost predicate Fair(a: Alphabet) {
    && a.space(' ') && !a.space('[')
    && (forall c | CredentialCharacter(c) :: !a.space(c))
    && (forall c, letter | Folds(c, letter) :: a.word(c))
  }

  /** `c` matches the lower-case letter `letter` when case is ignored; besides the two ASCII
      letters this holds of the long s, the dotted and the dotless i and the Kelvin sign. */
  predicate Folds(c: char, letter: char) {
    'a' <= letter <= 'z'
    && (c == letter || (c as int == letter as int - 32)
        || (letter == 's' && c == '\U{017F}') || (letter == 'i' && (c == '\U{0130}' || c == '\U{0131}'))
        || (letter == 'k' && c == '\U{212A}'))
  }

  /** `[A-Za-z0-9._~+/=-]`, ignoring case. */
  predicate CredentialCharacter(c: char) {
    'a' <= c <= 'z' || 'A' <= c <= 'Z' || '0' <= c <= '9' || c in "._~+/=-" || c in "\U{017F}\U{0130}\U{0131}\U{212A}"
  }

  /** The text begins with the pattern; letters ignore case. */
  predicate Begins(s: string, pattern: string) {
    pattern == ""
    || (s != "" && (Folds(s[0], pattern[0]) || s[0] == pattern[0]) && Begins(s[1..], pattern[1..]))
  }

  // ---------- secret keys ----------

  predicate BeginsSecret(s: string) {
    Begins(s, "authorization") || Begins(s, "proxy-authorization") || Begins(s, "apikey") || Begins(s, "api-key")
    || Begins(s, "api_key") || Begins(s, "token") || Begins(s, "password") || Begins(s, "secret")
    || Begins(s, "cookie") || Begins(s, "set-cookie")
  }

  predicate SecretKey(key: string) {
    BeginsSecret(key) || (key != "" && SecretKey(key[1..]))
  }

  // ---------- credentials in text ----------

  const BEARER := "bearer"
  const BASIC := "basic"

  /** Length of the scheme at the start of the text, or 0. */
  function SchemeLength(s: string): nat {
    if Begins(s, BEARER) then 6 else if Begins(s, BASIC) then 5 else 0
  }

  /** Length of the longest run of characters at the start. */
  function RunLength(s: string, member: char -> bool): (n: nat)
    ensures n <= |s|
  {
    if s != "" && member(s[0]) then 1 + RunLength(s[1..], member) else 0
  }

  lemma {:induction false} BeginsLength(s: string, pattern: string)
    requires Begins(s, pattern)
    ensures |pattern| <= |s|
  {
    if pattern != "" {
      BeginsLength(s[1..], pattern[1..]);
    }
  }

  /** A credential starts here: a scheme, spaces and at least one credential character. */
  predicate Starts(s: string, a: Alphabet) {
    var scheme := SchemeLength(s);
    0 < scheme <= |s| && SpacesThenCredential(s[scheme..], a)
  }

  predicate SpacesThenCredential(s: string, a: Alphabet) {
    s != "" && a.space(s[0]) && MaybeSpacesThenCredential(s[1..], a)
  }

  predicate MaybeSpacesThenCredential(s: string, a: Alphabet) {
    s != "" && (CredentialCharacter(s[0]) || (a.space(s[0]) && MaybeSpacesThenCredential(s[1..], a)))
  }

  /** The end of the credential that starts here. */
  function MatchEnd(s: string, a: Alphabet): (end: nat)
    requires Starts(s, a)
    ensures SchemeLength(s) < end <= |s|
  {
    var scheme := SchemeLength(s);
    var gap := RunLength(s[scheme..], a.space);
    scheme + gap + RunLength(s[scheme + gap..], CredentialCharacter)
  }

  /** A word may begin after `before`. */
  predicate Boundary(before: Option<char>, a: Alphabet) {
    before.None? || !a.word(before.value)
  }

  const REDACTED := "[REDACTED]"

  /** `BEARER.sub(r"\1 [REDACTED]", s)`, where `before` is the character in front of `s`. */
  function Scrub(before: Option<char>, s: string, a: Alphabet): string
    decreases |s|
  {
    if s == "" then ""
    else if Boundary(before, a) && Starts(s, a) then
      var end := MatchEnd(s, a);
      s[..SchemeLength(s)] + " " + REDACTED + Scrub(Some(s[end - 1]), s[end..], a)
    else [s[0]] + Scrub(Some(s[0]), s[1..], a)
  }

  /** No credential starts anywhere. */
  predicate Matchless(before: Option<char>, s: string, a: Alphabet)
    decreases |s|
  {
    s != "" ==> !(Boundary(before, a) && Starts(s, a)) && Matchless(Some(s[0]), s[1..], a)
  }

  /** The first character can begin a scheme. */
  predicate CanStart(s: string) {
    s != "" && (s[0] == 'b' || s[0] == 'B')
  }

  lemma {:induction false} StartsWithB(s: string, a: Alphabet)
    requires Starts(s, a)
    ensures CanStart(s) && CredentialCharacter(s[0])
  {
    assert BEARER[0] == 'b' && BASIC[0] == 'b';
  }

  /** Scrubbing shows a run of spaces and a credential only where there was one. */
  lemma {:induction false} ScrubKeepsTail(before: Option<char>, s: string, a: Alphabet)
    requires MaybeSpacesThenCredential(Scrub(before, s, a), a)
    ensures MaybeSpacesThenCredential(s, a)
    decreases |s|
  {
    if Boundary(before, a) && s != "" && Starts(s, a) {
      StartsWithB(s, a);
    } else if s != "" && !CredentialCharacter(s[0]) {
      assert Scrub(before, s, a)[1..] == Scrub(Some(s[0]), s[1..], a);
      ScrubKeepsTail(Some(s[0]), s[1..], a);
    }
  }

  predicate Lower(pattern: string) {
    forall i | 0 <= i < |pattern| :: 'a' <= pattern[i] <= 'z'
  }

  /** Inside a word nothing is replaced, so a scheme's letters come from the original text. */
  lemma {:induction false} ScrubKeepsWord(c: char, s: string, pattern: string, a: Alphabet) returns (last: char)
    requires Fair(a) && a.word(c) && Lower(pattern) && Begins(Scrub(Some(c), s, a), pattern)
    ensures Begins(s, pattern) && |pattern| <= |s| && |pattern| <= |Scrub(Some(c), s, a)|
    ensures Scrub(Some(c), s, a)[|pattern|..] == Scrub(Some(last), s[|pattern|..], a)
    decreases |pattern|
  {
    last := c;
    if pattern != "" {
      var out := Scrub(Some(c), s, a);
      assert out[1..] == Scrub(Some(s[0]), s[1..], a);
      assert Folds(s[0], pattern[0]);
      last := ScrubKeepsWord(s[0], s[1..], pattern[1..], a);
      assert out[|pattern|..] == out[1..][|pattern| - 1..];
    }
  }

  lemma {:induction false} SchemesDiffer(s: string)
    ensures !(Begins(s, BEARER) && Begins(s, BASIC))
  {
    assert BEARER[1..][0] == 'e' && BASIC[1..][0] == 'a';
  }

  /** If the scrubbed text starts with a credential, so did the original. */
  lemma {:induction false} StartsKept(s: string, pattern: string, a: Alphabet)
    requires Fair(a) && s != "" && pattern in {BEARER, BASIC}
    requires var out := [s[0]] + Scrub(Some(s[0]), s[1..], a);
             Begins(out, pattern) && |pattern| <= |out| && SpacesThenCredential(out[|pattern|..], a)
    ensures Starts(s, a)
  {
    var out := [s[0]] + Scrub(Some(s[0]), s[1..], a);
    assert out[1..] == Scrub(Some(s[0]), s[1..], a) && pattern[0] == 'b';
    assert Folds(s[0], 'b');
    var last := ScrubKeepsWord(s[0], s[1..], pattern[1..], a);
    assert out[|pattern|..] == Scrub(Some(last), s[|pattern|..], a);
    assert s[1..][|pattern| - 1..] == s[|pattern|..];
    ScrubKeepsSpaces(Some(last), s[|pattern|..], a);
    SchemesDiffer(s);
  }

  lemma {:induction false} ScrubKeepsSpaces(before: Option<char>, s: string, a: Alphabet)
    requires Fair(a) && SpacesThenCredential(Scrub(before, s, a), a)
    ensures SpacesThenCredential(s, a)
  {
    if Boundary(before, a) && Starts(s, a) {
      StartsWithB(s, a);
    } else {
      assert Scrub(before, s, a)[1..] == Scrub(Some(s[0]), s[1..], a);
      ScrubKeepsTail(Some(s[0]), s[1..], a);
    }
  }

  lemma {:induction false} NoNewStart(s: string, a: Alphabet)
    requires Fair(a) && s != "" && !Starts(s, a)
    ensures !Starts([s[0]] + Scrub(Some(s[0]), s[1..], a), a)
  {
    var out := [s[0]] + Scrub(Some(s[0]), s[1..], a);
    if Starts(out, a) {
      StartsKept(s, if Begins(out, BEARER) then BEARER else BASIC, a);
    }
  }

  /** In front of a text without a possible start, the preceding character does not matter. */
  lemma {:induction false} OtherContext(before: Option<char>, other: Option<char>, s: string, a: Alphabet)
    requires !CanStart(s) && Matchless(before, s, a)
    ensures Matchless(other, s, a)
  {
    if s != "" && Starts(s, a) {
      StartsWithB(s, a);
    }
  }

  lemma {:induction false} PlainPrefix(before: Option<char>, prefix: string, s: string, a: Alphabet)
    requires forall i | 0 <= i < |prefix| :: prefix[i] != 'b' && prefix[i] != 'B'
    requires prefix != "" && Matchless(Some(prefix[|prefix| - 1]), s, a)
    ensures Matchless(before, prefix + s, a)
    decreases |prefix|
  {
    assert (prefix + s)[1..] == prefix[1..] + s;
    if Starts(prefix + s, a) {
      StartsWithB(prefix + s, a);
    }
    if |prefix| > 1 {
      PlainPrefix(Some(prefix[0]), prefix[1..], s, a);
    }
  }

  lemma {:induction false} RunStops(s: string, member: char -> bool)
    ensures RunLength(s, member) < |s| ==> !member(s[RunLength(s, member)])
  {
    if s != "" && member(s[0]) {
      RunStops(s[1..], member);
    }
  }

  /** A match is as long as possible. */
  lemma {:induction false} MatchIsMaximal(s: string, a: Alphabet)
    requires Starts(s, a)
    ensures var rest := s[MatchEnd(s, a)..]; rest != "" ==> !CredentialCharacter(rest[0])
  {
    var scheme := SchemeLength(s);
    var gap := RunLength(s[scheme..], a.space);
    RunStops(s[scheme + gap..], CredentialCharacter);
  }

  lemma {:induction false} ScrubFirst(before: Option<char>, s: string, a: Alphabet)
    requires !CanStart(s)
    ensures !CanStart(Scrub(before, s, a))
  {
    if s != "" && Starts(s, a) {
      StartsWithB(s, a);
    }
  }

  /** The letters of a scheme after its first contain no `b`. */
  lemma {:induction false} SchemeLetters(s: string, pattern: string)
    requires Begins(s, pattern) && Lower(pattern) && |pattern| <= |s|
    ensures forall i | 0 <= i < |pattern| :: Folds(s[i], pattern[i])
  {
    if pattern != "" {
      SchemeLetters(s[1..], pattern[1..]);
      assert forall i | 1 <= i < |pattern| :: s[i] == s[1..][i - 1] && pattern[i] == pattern[1..][i - 1];
    }
  }

  lemma {:induction false} BeginsTake(s: string, n: nat, t: string, pattern: string)
    requires |pattern| <= n <= |s|
    ensures Begins(s[..n] + t, pattern) == Begins(s, pattern)
    decreases |pattern|
  {
    if pattern != "" {
      assert (s[..n] + t)[1..] == s[1..][..n - 1] + t;
      BeginsTake(s[1..], n - 1, t, pattern[1..]);
    }
  }

  /** A replaced credential is none. */
  lemma {:induction false} ReplacedNoStart(s: string, rest: string, a: Alphabet)
    requires Fair(a) && Starts(s, a)
    ensures !Starts(s[..SchemeLength(s)] + (" " + REDACTED + rest), a)
  {
    var length := SchemeLength(s);
    var pattern := if Begins(s, BEARER) then BEARER else BASIC;
    var tail := " " + REDACTED + rest;
    var out := s[..length] + tail;
    BeginsTake(s, length, tail, pattern);
    SchemesDiffer(out);
    assert SchemeLength(out) == length && out[length..] == tail;
    assert tail[1..] == REDACTED + rest && (REDACTED + rest)[0] == '[';
  }

  lemma {:induction false} PlainMiddle(s: string, length: nat, pattern: string)
    requires 0 < length == |pattern| <= |s| && pattern in {BEARER, BASIC}
    requires forall i | 0 <= i < length :: Folds(s[i], pattern[i])
    ensures var middle := s[1..length] + " " + REDACTED;
            forall i | 0 <= i < |middle| :: middle[i] != 'b' && middle[i] != 'B'
  {
    var middle := s[1..length] + " " + REDACTED;
    forall i | 0 <= i < |middle| ensures middle[i] != 'b' && middle[i] != 'B' {
      if i < length - 1 {
        assert middle[i] == s[i + 1];
      } else if i == length - 1 {
        assert middle[i] == ' ';
      } else {
        assert middle[i] == REDACTED[i - length];
      }
    }
  }

  /** Nor is there one inside its text. */
  lemma {:induction false} ReplacedMatchless(before: Option<char>, s: string, rest: string, a: Alphabet)
    requires Fair(a) && Starts(s, a) && Matchless(Some(']'), rest, a)
    ensures Matchless(before, s[..SchemeLength(s)] + (" " + REDACTED + rest), a)
  {
    var length := SchemeLength(s);
    var out := s[..length] + (" " + REDACTED + rest);
    ReplacedNoStart(s, rest, a);
    SchemeLetters(s, if Begins(s, BEARER) then BEARER else BASIC);
    var middle := s[1..length] + " " + REDACTED;
    assert out[1..] == middle + rest;
    PlainMiddle(s, length, if Begins(s, BEARER) then BEARER else BASIC);
    PlainPrefix(Some(out[0]), middle, rest, a);
  }

  /** What a match is replaced with. */
  lemma {:induction false} ScrubMatch(before: Option<char>, s: string, a: Alphabet)
    requires Starts(s, a) && Boundary(before, a)
    ensures var end := MatchEnd(s, a);
            Scrub(before, s, a)
            == s[..SchemeLength(s)] + (" " + REDACTED + Scrub(Some(s[end - 1]), s[end..], a))
  {
  }

  lemma {:induction false} ScrubHere(before: Option<char>, s: string, a: Alphabet)
    requires Fair(a) && Starts(s, a) && Boundary(before, a)
    requires var last := Some(s[MatchEnd(s, a) - 1]);
             Matchless(last, Scrub(last, s[MatchEnd(s, a)..], a), a)
    ensures Matchless(before, Scrub(before, s, a), a)
  {
    var end := MatchEnd(s, a);
    var rest := Scrub(Some(s[end - 1]), s[end..], a);
    MatchIsMaximal(s, a);
    ScrubFirst(Some(s[end - 1]), s[end..], a);
    OtherContext(Some(s[end - 1]), Some(']'), rest, a);
    ReplacedMatchless(before, s, rest, a);
    ScrubMatch(before, s, a);
  }

  lemma {:induction false} ScrubLater(before: Option<char>, s: string, a: Alphabet)
    requires Fair(a) && s != "" && !(Boundary(before, a) && Starts(s, a))
      && Matchless(Some(s[0]), Scrub(Some(s[0]), s[1..], a), a)
    ensures Matchless(before, Scrub(before, s, a), a)
  {
    var out := [s[0]] + Scrub(Some(s[0]), s[1..], a);
    assert out[1..] == Scrub(Some(s[0]), s[1..], a);
    if !Starts(s, a) {
      NoNewStart(s, a);
    }
  }

  /** Scrubbed text contains no credential. */
  lemma {:induction false} ScrubMatchless(before: Option<char>, s: string, a: Alphabet)
    requires Fair(a)
    ensures Matchless(before, Scrub(before, s, a), a)
    decreases |s|
  {
    if s == "" {
    } else if Boundary(before, a) && Starts(s, a) {
      ScrubMatchless(Some(s[MatchEnd(s, a) - 1]), s[MatchEnd(s, a)..], a);
      ScrubHere(before, s, a);
    } else {
      ScrubMatchless(Some(s[0]), s[1..], a);
      ScrubLater(before, s, a);
    }
  }

  lemma {:induction false} MatchlessKept(before: Option<char>, s: string, a: Alphabet)
    requires Matchless(before, s, a)
    ensures Scrub(before, s, a) == s
    decreases |s|
  {
    if s != "" {
      MatchlessKept(Some(s[0]), s[1..], a);
    }
  }

  // ---------- what scrubbing does to a text ----------

  lemma {:induction false} BeginsExactly(s: string, pattern: string)
    ensures Begins(s, pattern) <==>
      |pattern| <= |s| && forall j | 0 <= j < |pattern| :: Folds(s[j], pattern[j]) || s[j] == pattern[j]
  {
    if pattern != "" && s != "" {
      BeginsExactly(s[1..], pattern[1..]);
      if |pattern| <= |s| {
        assert forall j | 1 <= j < |pattern| :: s[j] == s[1..][j - 1] && pattern[j] == pattern[1..][j - 1];
        assert forall j | 0 <= j < |pattern| - 1 :: s[1..][j] == s[j + 1] && pattern[1..][j] == pattern[j + 1];
      }
    }
  }

  /** Of the ASCII characters the two cases of a letter match it. */
  lemma {:induction false} FoldsExactly(c: char, letter: char)
    requires c as int < 128
    ensures Folds(c, letter) <==>
      && 'a' <= letter <= 'z'
      && (c == letter || ('A' <= c <= 'Z' && c as int - 'A' as int == letter as int - 'a' as int))
  {
  }

  /** The text begins with a scheme of `n` letters, spaces up to `gap` and a credential up to `end`, as
      long as it can be. */
  ghost predicate CredentialAt(s: string, a: Alphabet, n: nat, gap: nat, end: nat) {
    && n < gap < end <= |s|
    && (n == 6 || n == 5)
    && (n == 6 ==> forall j | 0 <= j < 6 :: Folds(s[j], "bearer"[j]))
    && (n == 5 ==> forall j | 0 <= j < 5 :: Folds(s[j], "basic"[j]))
    && (forall j | n <= j < gap :: a.space(s[j]))
    && (forall j | gap <= j < end :: CredentialCharacter(s[j]))
    && (end < |s| ==> !CredentialCharacter(s[end]))
  }

  lemma {:induction false} RunIs(s: string, member: char -> bool)
    ensures forall j | 0 <= j < RunLength(s, member) :: member(s[j])
    ensures RunLength(s, member) < |s| ==> !member(s[RunLength(s, member)])
  {
    if s != "" && member(s[0]) {
      RunIs(s[1..], member);
      assert forall j | 1 <= j < |s| :: s[j] == s[1..][j - 1];
    }
  }

  lemma {:induction false} SpacesExactly(s: string, a: Alphabet)
    requires Fair(a)
    ensures MaybeSpacesThenCredential(s, a) <==>
      var gap := RunLength(s, a.space); gap < |s| && CredentialCharacter(s[gap])
  {
    if s != "" && a.space(s[0]) {
      SpacesExactly(s[1..], a);
    }
  }

  lemma {:induction false} SchemeExactly(s: string)
    ensures SchemeLength(s) == 6 <==> |s| >= 6 && forall j | 0 <= j < 6 :: Folds(s[j], "bearer"[j])
    ensures SchemeLength(s) == 5 ==> |s| >= 5 && forall j | 0 <= j < 5 :: Folds(s[j], "basic"[j])
    ensures |s| >= 5 && (forall j | 0 <= j < 5 :: Folds(s[j], "basic"[j])) ==> SchemeLength(s) == 5
    ensures SchemeLength(s) in {0, 5, 6}
  {
    BeginsExactly(s, BEARER);
    BeginsExactly(s, BASIC);
    SchemesDiffer(s);
    assert forall j | 0 <= j < 6 :: Folds(BEARER[j], BEARER[j]);
    assert forall j | 0 <= j < 5 :: Folds(BASIC[j], BASIC[j]);
  }

  /** A credential starts where the pattern matches, and it is as long as possible. */
  lemma {:induction false} StartsExactly(s: string, a: Alphabet)
    requires Fair(a)
    ensures Starts(s, a) <==> exists n, gap, end :: CredentialAt(s, a, n, gap, end)
    ensures Starts(s, a) ==> exists gap :: CredentialAt(s, a, SchemeLength(s), gap, MatchEnd(s, a))
  {
    SchemeExactly(s);
    if Starts(s, a) {
      MatchIsCredential(s, a);
    }
    if n, gap, end :| CredentialAt(s, a, n, gap, end) {
      assert SchemeLength(s) == n;
      CredentialStarts(s, a, n, gap, end);
    }
  }

  lemma {:induction false} MatchSpaces(s: string, a: Alphabet, n: nat)
    requires Fair(a) && Starts(s, a) && n == SchemeLength(s)
    ensures var gap := n + RunLength(s[n..], a.space);
            && n < gap < |s| && CredentialCharacter(s[gap]) && forall j | n <= j < gap :: a.space(s[j])
  {
    var spaces := RunLength(s[n..], a.space);
    SpacesExactly(s[n..][1..], a);
    RunIs(s[n..], a.space);
    forall j | n <= j < n + spaces ensures a.space(s[j]) {
      assert s[j] == s[n..][j - n];
    }
    assert s[n + spaces] == s[n..][1..][spaces - 1];
  }

  lemma {:induction false} MatchCharacters(s: string, gap: nat, end: nat)
    requires gap < |s| && end == gap + RunLength(s[gap..], CredentialCharacter)
    ensures forall j | gap <= j < end :: CredentialCharacter(s[j])
    ensures end < |s| ==> !CredentialCharacter(s[end])
  {
    RunIs(s[gap..], CredentialCharacter);
    forall j | gap <= j < end ensures CredentialCharacter(s[j]) {
      assert s[j] == s[gap..][j - gap];
    }
  }

  lemma {:induction false} SchemeThenCredential(s: string, a: Alphabet, n: nat, gap: nat, end: nat)
    requires n == SchemeLength(s) > 0 && n < gap < end <= |s|
    requires (forall j | n <= j < gap :: a.space(s[j])) && forall j | gap <= j < end :: CredentialCharacter(s[j])
    requires end < |s| ==> !CredentialCharacter(s[end])
    ensures CredentialAt(s, a, n, gap, end)
  {
    SchemeExactly(s);
  }

  lemma {:induction false} MatchIsCredential(s: string, a: Alphabet)
    requires Fair(a) && Starts(s, a)
    ensures exists gap :: CredentialAt(s, a, SchemeLength(s), gap, MatchEnd(s, a))
  {
    var n := SchemeLength(s);
    var gap := n + RunLength(s[n..], a.space);
    MatchSpaces(s, a, n);
    MatchCharacters(s, gap, MatchEnd(s, a));
    SchemeThenCredential(s, a, n, gap, MatchEnd(s, a));
  }

  lemma {:induction false} CredentialStarts(s: string, a: Alphabet, n: nat, gap: nat, end: nat)
    requires Fair(a) && CredentialAt(s, a, n, gap, end) && SchemeLength(s) == n
    ensures Starts(s, a)
  {
    var rest := s[n + 1..];
    SpacesExactly(rest, a);
    assert s[n..][1..] == rest && s[n..][0] == s[n];
    forall j | 0 <= j < gap - n - 1 ensures a.space(rest[j]) {
      assert rest[j] == s[n + 1 + j];
    }
    assert rest[gap - n - 1] == s[gap];
    RunEnds(rest, a.space, gap - n - 1);
  }

  lemma {:induction false} RunEnds(s: string, member: char -> bool, k: nat)
    requires k < |s| && (forall j | 0 <= j < k :: member(s[j])) && !member(s[k])
    ensures RunLength(s, member) == k
  {
    if k > 0 {
      assert member(s[0]);
      forall j | 0 <= j < k - 1 ensures member(s[1..][j]) {
        assert s[1..][j] == s[j + 1];
      }
      RunEnds(s[1..], member, k - 1);
    }
  }

  lemma {:induction false} CredentialUnique(s: string, a: Alphabet, n: nat, gap: nat, end: nat, gap_: nat, end_: nat)
    requires Fair(a) && CredentialAt(s, a, n, gap, end) && CredentialAt(s, a, n, gap_, end_)
    ensures gap == gap_ && end == end_
  {
    assert CredentialCharacter(s[gap]) && CredentialCharacter(s[gap_]);
  }

  /** A token as section 2.1 of RFC 6750 and the Basic scheme of RFC 7617 write it. */
  predicate IsToken(token: string) {
    token != "" && forall c | c in token ::
      'a' <= c <= 'z' || 'A' <= c <= 'Z' || '0' <= c <= '9'
      || c == '-' || c == '.' || c == '_' || c == '~' || c == '+' || c == '/' || c == '='
  }

  lemma {:induction false} BearerBegins(tail: string)
    ensures SchemeLength("Bearer" + tail) == 6
  {
    var s := "Bearer" + tail;
    assert s[0] == 'B' && s[1] == 'e' && s[2] == 'a' && s[3] == 'r' && s[4] == 'e' && s[5] == 'r';
    SchemeExactly(s);
  }

  lemma {:induction false} BasicBegins(tail: string)
    ensures SchemeLength("Basic" + tail) == 5
  {
    var s := "Basic" + tail;
    assert s[0] == 'B' && s[1] == 'a' && s[2] == 's' && s[3] == 'i' && s[4] == 'c';
    SchemeExactly(s);
  }

  lemma {:induction false} SchemeBegins(scheme: string, tail: string)
    requires scheme == "Bearer" || scheme == "Basic"
    ensures SchemeLength(scheme + tail) == |scheme|
  {
    BearerBegins(tail);
    BasicBegins(tail);
  }

  lemma {:induction false} MatchEndIs(s: string, a: Alphabet, n: nat, end: nat)
    requires Fair(a) && SchemeLength(s) == n && CredentialAt(s, a, n, n + 1, end)
    ensures Starts(s, a) && MatchEnd(s, a) == end
  {
    CredentialStarts(s, a, n, n + 1, end);
    MatchIsCredential(s, a);
    var gap :| CredentialAt(s, a, n, gap, MatchEnd(s, a));
    CredentialUnique(s, a, n, n + 1, end, gap, MatchEnd(s, a));
  }

  lemma {:induction false} CutAt(s: string, a: Alphabet, scheme: string, end: nat, last: char, rest: string)
    requires Starts(s, a) && MatchEnd(s, a) == end && SchemeLength(s) == |scheme|
    requires s[..|scheme|] == scheme && s[end - 1] == last && s[end..] == rest
    ensures Scrub(None, s, a) == scheme + (" " + REDACTED + Scrub(Some(last), rest, a))
  {
    ScrubMatch(None, s, a);
  }

  lemma {:induction false} TokenPlaced(scheme: string, token: string, rest: string, s: string)
    requires s == scheme + (" " + token + rest) && IsToken(token)
    ensures var end := |scheme| + 1 + |token|;
            && s[..|scheme|] == scheme && s[|scheme|] == ' ' && s[end..] == rest && s[end - 1] == token[|token| - 1]
            && forall j | |scheme| < j < end :: CredentialCharacter(s[j])
  {
    var end := |scheme| + 1 + |token|;
    var tail := " " + token + rest;
    forall j | |scheme| < j < end ensures CredentialCharacter(s[j]) {
      var c := token[j - |scheme| - 1];
      assert c in token && s[j] == tail[j - |scheme|] == c;
    }
    assert s[|scheme|] == tail[0];
    assert s[end - 1] == tail[|token|] == token[|token| - 1];
    assert tail[1 + |token|..] == rest;
  }

  lemma {:induction false} TokenIsCredential(scheme: string, token: string, rest: string, s: string, a: Alphabet)
    requires Fair(a) && s == scheme + (" " + token + rest) && IsToken(token) && SchemeLength(s) == |scheme| > 0
    requires rest != "" ==> rest[0] == ',' || rest[0] == ';' || rest[0] == '"' || rest[0] == ' '
    ensures CredentialAt(s, a, |scheme|, |scheme| + 1, |scheme| + 1 + |token|)
  {
    TokenPlaced(scheme, token, rest, s);
    assert rest != "" ==> s[|scheme| + 1 + |token|] == rest[0];
    SchemeThenCredential(s, a, |scheme|, |scheme| + 1, |scheme| + 1 + |token|);
  }

  /** The token behind a scheme is removed whole, up to what ends it, and the rest is scrubbed on its own. */
  lemma {:induction false} TokenScrubbed(s: string, scheme: string, token: string, rest: string, a: Alphabet)
    requires s == scheme + (" " + token + rest) && (scheme == "Bearer" || scheme == "Basic") && IsToken(token)
    requires Fair(a) && (rest != "" ==> rest[0] == ',' || rest[0] == ';' || rest[0] == '"' || rest[0] == ' ')
    ensures Scrub(None, s, a) == scheme + (" " + "[REDACTED]" + Scrub(Some(token[|token| - 1]), rest, a))
  {
    var end := |scheme| + 1 + |token|;
    SchemeBegins(scheme, " " + token + rest);
    TokenIsCredential(scheme, token, rest, s, a);
    TokenPlaced(scheme, token, rest, s);
    MatchEndIs(s, a, |scheme|, end);
    CutAt(s, a, scheme, end, token[|token| - 1], rest);
  }

  /** A character of a text that is kept, or a credential that is replaced behind its scheme. */
  datatype Piece = Kept(c: char) | Credential(scheme: string, secret: string)

  function Original(pieces: seq<Piece>): string {
    if pieces == [] then ""
    else (match pieces[0] case Kept(c) => [c] case Credential(scheme, secret) => scheme + secret)
         + Original(pieces[1..])
  }

  function Replaced(pieces: seq<Piece>): string {
    if pieces == [] then ""
    else (match pieces[0] case Kept(c) => [c] case Credential(scheme, _) => scheme + " [REDACTED]")
         + Replaced(pieces[1..])
  }

  /** The credentials are exactly the matches that start at the beginning of a word, from left to right. */
  ghost predicate Leftmost(before: Option<char>, pieces: seq<Piece>, a: Alphabet)
    decreases |pieces|
  {
    if pieces == [] then true
    else
      var s := Original(pieces);
      var wordBegins := before.None? || !a.word(before.value);
      match pieces[0]
      case Kept(c) =>
        && (wordBegins ==> forall n, gap, end :: !CredentialAt(s, a, n, gap, end))
        && Leftmost(Some(c), pieces[1..], a)
      case Credential(scheme, secret) =>
        && wordBegins && secret != ""
        && (exists gap :: CredentialAt(s, a, |scheme|, gap, |scheme + secret|))
        && Leftmost(Some(secret[|secret| - 1]), pieces[1..], a)
  }

  /** Scrubbing replaces the credentials of a text behind their schemes and keeps everything else. */
  lemma {:induction false} ScrubIsSubstitution(before: Option<char>, s: string, a: Alphabet)
    returns (pieces: seq<Piece>)
    requires Fair(a)
    ensures Original(pieces) == s && Replaced(pieces) == Scrub(before, s, a) && Leftmost(before, pieces, a)
    decreases |s|
  {
    pieces := [];
    if s != "" {
      if Boundary(before, a) && Starts(s, a) {
        var rest := ScrubIsSubstitution(Some(s[MatchEnd(s, a) - 1]), s[MatchEnd(s, a)..], a);
        MatchIsCredential(s, a);
        pieces := ScrubOne(before, s, SchemeLength(s), MatchEnd(s, a), rest, a);
        ScrubMatch(before, s, a);
      } else {
        var rest := ScrubIsSubstitution(Some(s[0]), s[1..], a);
        pieces := KeepOne(before, s, rest, a);
      }
    }
  }

  lemma {:induction false} ScrubOne(before: Option<char>, s: string, n: nat, end: nat, rest: seq<Piece>, a: Alphabet)
    returns (pieces: seq<Piece>)
    requires n < end <= |s| && Boundary(before, a) && exists gap :: CredentialAt(s, a, n, gap, end)
    requires Original(rest) == s[end..] && Leftmost(Some(s[end - 1]), rest, a)
    ensures Original(pieces) == s && Leftmost(before, pieces, a)
    ensures Replaced(pieces) == s[..n] + (" " + REDACTED + Replaced(rest))
  {
    pieces := [Credential(s[..n], s[n..end])] + rest;
    OneOriginal(s, n, end, rest);
    OneReplaced(s, n, end, rest);
    LeftmostCredential(before, s, n, end, rest, a);
  }

  lemma {:induction false} OneOriginal(s: string, n: nat, end: nat, rest: seq<Piece>)
    requires n <= end <= |s| && Original(rest) == s[end..]
    ensures Original([Credential(s[..n], s[n..end])] + rest) == s
  {
    PrependCredential(s[..n], s[n..end], rest);
    Rejoin(s, n, end);
  }

  lemma {:induction false} OneReplaced(s: string, n: nat, end: nat, rest: seq<Piece>)
    requires n <= end <= |s|
    ensures Replaced([Credential(s[..n], s[n..end])] + rest) == s[..n] + (" " + REDACTED + Replaced(rest))
  {
    PrependCredential(s[..n], s[n..end], rest);
    Regroup(s[..n], Replaced(rest));
  }

  lemma {:induction false} Rejoin(s: string, n: nat, end: nat)
    requires n <= end <= |s|
    ensures s[..n] + s[n..end] + s[end..] == s
  {
  }

  lemma {:induction false} Regroup(scheme: string, rest: string)
    ensures scheme + " [REDACTED]" + rest == scheme + (" " + REDACTED + rest)
  {
  }

  lemma {:induction false} PrependCredential(scheme: string, secret: string, rest: seq<Piece>)
    ensures Original([Credential(scheme, secret)] + rest) == scheme + secret + Original(rest)
    ensures Replaced([Credential(scheme, secret)] + rest) == scheme + " [REDACTED]" + Replaced(rest)
  {
    assert ([Credential(scheme, secret)] + rest)[1..] == rest;
  }

  lemma {:induction false} LeftmostCredential(before: Option<char>, s: string, n: nat, end: nat, rest: seq<Piece>,
        a: Alphabet)
    requires n < end <= |s| && Boundary(before, a)
    requires exists gap :: CredentialAt(s, a, n, gap, end)
    requires Original(rest) == s[end..] && Leftmost(Some(s[end - 1]), rest, a)
    ensures Leftmost(before, [Credential(s[..n], s[n..end])] + rest, a)
  {
    PrependCredential(s[..n], s[n..end], rest);
    Rejoin(s, n, end);
    assert ([Credential(s[..n], s[n..end])] + rest)[1..] == rest;
    assert |s[..n] + s[n..end]| == end && s[n..end][end - n - 1] == s[end - 1];
  }

  lemma {:induction false} KeepOne(before: Option<char>, s: string, rest: seq<Piece>, a: Alphabet)
    returns (pieces: seq<Piece>)
    requires Fair(a) && s != "" && !(Boundary(before, a) && Starts(s, a))
    requires Original(rest) == s[1..] && Leftmost(Some(s[0]), rest, a)
    requires Replaced(rest) == Scrub(Some(s[0]), s[1..], a)
    ensures Original(pieces) == s && Replaced(pieces) == Scrub(before, s, a) && Leftmost(before, pieces, a)
  {
    pieces := [Kept(s[0])] + rest;
    assert pieces[1..] == rest && [s[0]] + s[1..] == s;
    StartsExactly(s, a);
  }

  // ---------- which keys are secret ----------

  /** The word stands at position `i` of the key, whatever the case of its letters. */
  predicate WordAt(key: string, i: nat, word: string) {
    i + |word| <= |key| && forall j | 0 <= j < |word| :: Folds(key[i..][j], word[j]) || key[i..][j] == word[j]
  }

  ghost predicate Mentions(key: string, word: string) {
    exists i: nat :: WordAt(key, i, word)
  }

  lemma {:induction false} WordAtTail(key: string, i: nat, word: string)
    requires key != ""
    ensures WordAt(key, i + 1, word) <==> WordAt(key[1..], i, word)
  {
    if i + 1 <= |key| {
      assert key[i + 1..] == key[1..][i..];
    }
  }

  lemma {:induction false} MentionsBegins(key: string, word: string)
    requires word != ""
    ensures Mentions(key, word) <==> Begins(key, word) || (key != "" && Mentions(key[1..], word))
  {
    BeginsExactly(key, word);
    assert key[0..] == key;
    if Begins(key, word) {
      assert WordAt(key, 0, word);
    }
    if i: nat :| WordAt(key, i, word) {
      if i > 0 {
        WordAtTail(key, i - 1, word);
      }
    }
    if key != "" && Mentions(key[1..], word) {
      var i: nat :| WordAt(key[1..], i, word);
      WordAtTail(key, i, word);
    }
  }

  ghost const SECRET_WORDS: set<string> := {"authorization", "proxy-authorization", "apikey", "api-key", "api_key",
    "token", "password", "secret", "cookie", "set-cookie"}

  /** A key is secret exactly if it mentions one of these words. */
  lemma {:induction false} SecretKeyExactly(key: string)
    ensures SecretKey(key) <==> exists word :: word in SECRET_WORDS && Mentions(key, word)
  {
    assert "" !in SECRET_WORDS;
    forall word | word in SECRET_WORDS
      ensures Mentions(key, word) <==> Begins(key, word) || (key != "" && Mentions(key[1..], word))
    {
      MentionsBegins(key, word);
    }
    BeginsSecretExactly(key);
    if key != "" {
      SecretKeyExactly(key[1..]);
    }
  }

  lemma {:induction false} BeginsSecretExactly(key: string)
    ensures BeginsSecret(key) <==> exists word :: word in SECRET_WORDS && Begins(key, word)
  {
  }

  // ---------- structured data ----------

  function Redact(value: Json, key: string, a: Alphabet): Json
    decreases value, 0
  {
    if SecretKey(key) then Str(REDACTED)
    else match value
      case Str(s) => Str(Scrub(None, s, a))
      case Obj(fields) => Obj(map k | k in fields :: Redact(fields[k], k, a))
      case Arr(items) => Arr(RedactItems(items, a))
      case _ => value
  }

  function RedactItems(items: seq<Json>, a: Alphabet): (redacted: seq<Json>)
    ensures |redacted| == |items|
    decreases items, 1
  {
    if items == [] then [] else [Redact(items[0], "", a)] + RedactItems(items[1..], a)
  }

  lemma {:induction false} ItemAt(items: seq<Json>, i: nat, a: Alphabet)
    requires i < |items|
    ensures RedactItems(items, a)[i] == Redact(items[i], "", a)
  {
    if i > 0 {
      ItemAt(items[1..], i - 1, a);
    }
  }

  /** A step into a mapping or a list. */
  datatype Place = Member(key: string) | Item(index: nat)

  predicate HasPlace(value: Json, place: Place) {
    match place
    case Member(key) => value.Obj? && key in value.fields
    case Item(index) => value.Arr? && index < |value.items|
  }

  function Inside(value: Json, place: Place): Json
    requires HasPlace(value, place)
  {
    match place case Member(key) => value.fields[key] case Item(index) => value.items[index]
  }

  /** The key under which the value at a place is redacted. */
  function KeyAt(place: Place): string {
    match place case Member(key) => key case Item(_) => ""
  }

  /** Redaction goes through the data place by place: outside secret keys it keeps every place, and it
      keeps every value that is not a text; a text is scrubbed. */
  lemma {:induction false} RedactKeepsPlaces(value: Json, key: string, a: Alphabet, place: Place)
    ensures SecretKey(key) ==> Redact(value, key, a) == Str("[REDACTED]")
    ensures !SecretKey(key) ==> (HasPlace(Redact(value, key, a), place) <==> HasPlace(value, place))
    ensures !SecretKey(key) && HasPlace(value, place) ==>
      Inside(Redact(value, key, a), place) == Redact(Inside(value, place), KeyAt(place), a)
    ensures !SecretKey(key) && !value.Obj? && !value.Arr? ==>
      Redact(value, key, a) == if value.Str? then Str(Scrub(None, value.s, a)) else value
  {
    if value.Arr? && place.Item? && place.index < |value.items| {
      ItemAt(value.items, place.index, a);
    }
  }

  /** Under the given key: at every depth, secret keys hold the replacement and strings under
      other keys contain no credential. */
  predicate Safe(value: Json, key: string, a: Alphabet) {
    if SecretKey(key) then value == Str(REDACTED)
    else match value
      case Str(s) => Matchless(None, s, a)
      case Obj(fields) => forall k | k in fields :: Safe(fields[k], k, a)
      case Arr(items) => forall i | 0 <= i < |items| :: Safe(items[i], "", a)
      case _ => true
  }

  /** Redacted data is safe at every depth. */
  lemma {:induction false} RedactedIsSafe(value: Json, key: string, a: Alphabet)
    requires Fair(a)
    ensures Safe(Redact(value, key, a), key, a)
    decreases value
  {
    if !SecretKey(key) {
      match value
      case Str(s) => ScrubMatchless(None, s, a);
      case Obj(fields) =>
        forall k | k in fields ensures Safe(Redact(fields[k], k, a), k, a) {
          RedactedIsSafe(fields[k], k, a);
        }
      case Arr(items) =>
        forall i | 0 <= i < |items| ensures Safe(RedactItems(items, a)[i], "", a) {
          ItemAt(items, i, a);
          RedactedIsSafe(items[i], "", a);
        }
      case _ =>
    }
  }

  /** Safe data, and only safe data, is left as it is. */
  lemma {:induction false} SafeExactlyKept(value: Json, key: string, a: Alphabet)
    requires Fair(a)
    ensures Safe(value, key, a) <==> Redact(value, key, a) == value
    decreases value
  {
    RedactedIsSafe(value, key, a);
    if Safe(value, key, a) && !SecretKey(key) {
      SafeKept(value, key, a);
    }
  }

  lemma {:induction false} SafeKept(value: Json, key: string, a: Alphabet)
    requires Safe(value, key, a)
    ensures Redact(value, key, a) == value
    decreases value
  {
    if !SecretKey(key) {
      match value
      case Str(s) => MatchlessKept(None, s, a);
      case Obj(fields) =>
        forall k | k in fields ensures Redact(fields[k], k, a) == fields[k] {
          SafeKept(fields[k], k, a);
        }
      case Arr(items) =>
        forall i | 0 <= i < |items| ensures RedactItems(items, a)[i] == items[i] {
          ItemAt(items, i, a);
          SafeKept(items[i], "", a);
        }
      case _ =>
    }
  }

  /** Redacting twice is redacting once. */
  lemma {:induction false} RedactIdempotent(value: Json, key: string, a: Alphabet)
    requires Fair(a)
    ensures Redact(Redact(value, key, a), key, a) == Redact(value, key, a)
  {
    RedactedIsSafe(value, key, a);
    SafeKept(Redact(value, key, a), key, a);
  }
}
