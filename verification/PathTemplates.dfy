/** Path parameter substitution: one `str.replace` per parameter, with percent-encoded values. */
module PathTemplates {
  import opened Strings

  /** A path template is literal text and named placeholders. */
  datatype Segment = Literal(text: string) | Hole(name: string)

  predicate BraceFree(s: string) {
    '{' !in s && '}' !in s
  }

  predicate WellFormed(template: seq<Segment>) {
    forall i | 0 <= i < |template| :: BraceFree(if template[i].Literal? then template[i].text else template[i].name)
  }

  function Placeholder(name: string): string {
    "{" + name + "}"
  }

  function RenderSegment(segment: Segment): string {
    match segment
    case Literal(text) => text
    case Hole(name) => Placeholder(name)
  }

  /** The template as it is written in the endpoint's path. */
  function Render(template: seq<Segment>): string {
    if template == [] then "" else RenderSegment(template[0]) + Render(template[1..])
  }

  /** The template with every placeholder in `values` filled at once. */
  function Fill(template: seq<Segment>, values: map<string, string>): seq<Segment> {
    seq(|template|, i requires 0 <= i < |template| =>
      if template[i].Hole? && template[i].name in values then Literal(values[template[i].name]) else template[i])
  }

  /** The substitutions as they are made, in list order. */
  function ReplaceAll(path: string, values: seq<(string, string)>): string
    decreases |values|
  {
    if values == [] then path
    else ReplaceAll(Replace(path, Placeholder(values[0].0), values[0].1), values[1..])
  }

  function AsMap(values: seq<(string, string)>): map<string, string> {
    if values == [] then map[] else AsMap(values[..|values| - 1])[values[|values| - 1].0 := values[|values| - 1].1]
  }

  predicate DistinctNames(values: seq<(string, string)>) {
    forall i, j | 0 <= i < j < |values| :: values[i].0 != values[j].0
  }

  predicate BraceFreePairs(values: seq<(string, string)>) {
    forall i | 0 <= i < |values| :: BraceFree(values[i].0) && BraceFree(values[i].1)
  }

  // ---------- sequential replacement is simultaneous substitution ----------

  lemma {:induction false} ReplaceSkips(plain: string, rest: string, old_: string, new_: string)
    requires old_ != "" && old_[0] !in plain
    ensures Replace(plain + rest, old_, new_) == plain + Replace(rest, old_, new_)
    decreases |plain|
  {
    if plain == "" {
      assert plain + rest == rest;
    } else {
      var whole := plain + rest;
      assert whole[0] == plain[0] && whole[0] != old_[0];
      assert whole[1..] == plain[1..] + rest;
      ReplaceSkips(plain[1..], rest, old_, new_);
      assert [plain[0]] + (plain[1..] + Replace(rest, old_, new_)) == plain + Replace(rest, old_, new_);
    }
  }

  lemma {:induction false} ReplaceHits(rest: string, old_: string, new_: string)
    requires old_ != ""
    ensures Replace(old_ + rest, old_, new_) == new_ + Replace(rest, old_, new_)
  {
    assert (old_ + rest)[|old_|..] == rest;
  }

  /** A placeholder starts a text only if that text's first placeholder has the same name. */
  lemma {:induction false} PlaceholderPrefix(name: string, other: string, rest: string)
    requires BraceFree(name) && BraceFree(other)
    requires Placeholder(name) <= Placeholder(other) + rest
    ensures name == other
  {
    var whole := Placeholder(other) + rest;
    assert Placeholder(name)[|name| + 1] == '}';
    assert whole[|name| + 1] == '}';
    assert whole[|other| + 1] == '}' && Placeholder(name)[..|name| + 2] == Placeholder(name);
    assert |name| == |other|;
    forall i | 0 <= i < |name| ensures name[i] == other[i] {
      assert Placeholder(name)[i + 1] == whole[i + 1];
    }
  }

  lemma {:induction false} ReplacePasses(name: string, other: string, rest: string, new_: string)
    requires BraceFree(name) && BraceFree(other) && name != other
    ensures Replace(Placeholder(other) + rest, Placeholder(name), new_)
         == Placeholder(other) + Replace(rest, Placeholder(name), new_)
  {
    var whole := Placeholder(other) + rest;
    if Placeholder(name) <= whole {
      PlaceholderPrefix(name, other, rest);
    }
    assert whole[1..] == (other + "}") + rest;
    ReplaceSkips(other + "}", rest, Placeholder(name), new_);
    assert ["{"[0]] + ((other + "}") + Replace(rest, Placeholder(name), new_))
        == Placeholder(other) + Replace(rest, Placeholder(name), new_);
  }

  lemma {:induction false} ReplaceFills(template: seq<Segment>, name: string, value: string)
    requires WellFormed(template) && BraceFree(name)
    ensures Replace(Render(template), Placeholder(name), value) == Render(Fill(template, map[name := value]))
    decreases |template|
  {
    if template != [] {
      var values := map[name := value];
      ReplaceFills(template[1..], name, value);
      assert Fill(template, values)[1..] == Fill(template[1..], values);
      match template[0]
      case Literal(text) => ReplaceSkips(text, Render(template[1..]), Placeholder(name), value);
      case Hole(other) =>
        if other == name {
          ReplaceHits(Render(template[1..]), Placeholder(name), value);
        } else {
          ReplacePasses(name, other, Render(template[1..]), value);
        }
    }
  }

  lemma {:induction false} FillWellFormed(template: seq<Segment>, values: map<string, string>)
    requires WellFormed(template) && forall name | name in values :: BraceFree(values[name])
    ensures WellFormed(Fill(template, values))
  {
  }

  /** Replacing one parameter after the other is filling all of them at once. */
  lemma {:induction false} ReplaceAllFills(template: seq<Segment>, values: seq<(string, string)>)
    requires WellFormed(template) && BraceFreePairs(values) && DistinctNames(values)
    ensures ReplaceAll(Render(template), values) == Render(Fill(template, AsMap(values)))
    decreases |values|
  {
    if values == [] {
      assert Fill(template, map[]) == template;
    } else {
      var first := map[values[0].0 := values[0].1];
      ReplaceFills(template, values[0].0, values[0].1);
      FillWellFormed(template, first);
      ReplaceAllFills(Fill(template, first), values[1..]);
      FillTwice(template, values);
    }
  }

  lemma {:induction false} FillTwice(template: seq<Segment>, values: seq<(string, string)>)
    requires values != [] && DistinctNames(values)
    ensures Fill(Fill(template, map[values[0].0 := values[0].1]), AsMap(values[1..])) == Fill(template, AsMap(values))
  {
    var twice := Fill(Fill(template, map[values[0].0 := values[0].1]), AsMap(values[1..]));
    forall i | 0 <= i < |template| ensures twice[i] == Fill(template, AsMap(values))[i] {
      if template[i].Hole? {
        FillOnce(template[i], values);
      }
    }
  }

  lemma {:induction false} FillOnce(segment: Segment, values: seq<(string, string)>)
    requires values != [] && DistinctNames(values)
    requires segment.Hole?
    ensures segment.name == values[0].0 ==> segment.name in AsMap(values) && AsMap(values)[segment.name] == values[0].1
    ensures segment.name != values[0].0 ==>
      (segment.name in AsMap(values) <==> segment.name in AsMap(values[1..]))
      && (segment.name in AsMap(values) ==> AsMap(values)[segment.name] == AsMap(values[1..])[segment.name])
  {
    AsMapNames(values);
    AsMapNames(values[1..]);
  }

  /** With distinct names the map holds exactly the listed pairs. */
  lemma {:induction false} AsMapNames(values: seq<(string, string)>)
    requires DistinctNames(values)
    ensures forall i | 0 <= i < |values| :: values[i].0 in AsMap(values) && AsMap(values)[values[i].0] == values[i].1
    ensures forall name | name in AsMap(values) :: exists i :: 0 <= i < |values| && values[i].0 == name
  {
    if values != [] {
      var init := values[..|values| - 1];
      AsMapNames(init);
      forall i | 0 <= i < |values| ensures values[i].0 in AsMap(values) && AsMap(values)[values[i].0] == values[i].1 {
        if i < |values| - 1 {
          assert init[i] == values[i];
        }
      }
      forall name | name in AsMap(values) ensures exists i :: 0 <= i < |values| && values[i].0 == name {
        if name != values[|values| - 1].0 {
          assert name in AsMap(init);
          var i :| 0 <= i < |init| && init[i].0 == name;
          assert values[i].0 == name;
        }
      }
    }
  }

  /** The order of the substitutions does not matter. */
  lemma {:induction false} ReplaceAllAnyOrder(template: seq<Segment>, values: seq<(string, string)>,
        others: seq<(string, string)>)
    requires WellFormed(template)
    requires BraceFreePairs(values) && DistinctNames(values) && BraceFreePairs(others) && DistinctNames(others)
    requires forall pair :: pair in values <==> pair in others
    ensures ReplaceAll(Render(template), values) == ReplaceAll(Render(template), others)
  {
    ReplaceAllFills(template, values);
    ReplaceAllFills(template, others);
    AsMapNames(values);
    AsMapNames(others);
    forall name ensures name in AsMap(values) <==> name in AsMap(others)
      ensures name in AsMap(values) ==> AsMap(values)[name] == AsMap(others)[name]
    {
      if name in AsMap(values) {
        var i :| 0 <= i < |values| && values[i].0 == name;
        assert values[i] in others;
      }
      if name in AsMap(others) {
        var i :| 0 <= i < |others| && others[i].0 == name;
        assert others[i] in values;
      }
    }
    assert AsMap(values) == AsMap(others);
  }

  /** No placeholder of a substituted parameter is left in the path. */
  lemma {:induction false} NoPlaceholderSurvives(template: seq<Segment>, values: seq<(string, string)>, name: string,
        new_: string)
    requires WellFormed(template) && BraceFreePairs(values) && DistinctNames(values)
    requires exists i :: 0 <= i < |values| && values[i].0 == name
    ensures Replace(ReplaceAll(Render(template), values), Placeholder(name), new_)
         == ReplaceAll(Render(template), values)
  {
    ReplaceAllFills(template, values);
    AsMapNames(values);
    var filled := Fill(template, AsMap(values));
    FillWellFormed(template, AsMap(values)) by {
      forall other | other in AsMap(values) ensures BraceFree(AsMap(values)[other]) {
        var i :| 0 <= i < |values| && values[i].0 == other;
      }
    }
    ReplaceFills(filled, name, new_);
    assert Fill(filled, map[name := new_]) == filled;
  }

  // ---------- percent-encoding ----------

  /** RFC 3986 section 2.3. */
  predicate Unreserved(byte: int) {
    || 'A' as int <= byte <= 'Z' as int || 'a' as int <= byte <= 'z' as int || '0' as int <= byte <= '9' as int
    || byte == '-' as int || byte == '.' as int || byte == '_' as int || byte == '~' as int
  }

  function HexDigit(n: nat): char
    requires n < 16
  {
    if n < 10 then ('0' as int + n) as char else ('A' as int + n - 10) as char
  }

  type Octet = b: int | 0 <= b < 256

  /** UTF-8 (RFC 3629 section 3). */
  function Utf8(c: char): seq<Octet> {
    var n := c as int;
    if n < 0x80 then [n]
    else if n < 0x800 then [0xC0 + n / 0x40, 0x80 + n % 0x40]
    else if n < 0x10000 then [0xE0 + n / 0x1000, 0x80 + n / 0x40 % 0x40, 0x80 + n % 0x40]
    else [0xF0 + n / 0x40000, 0x80 + n / 0x1000 % 0x40, 0x80 + n / 0x40 % 0x40, 0x80 + n % 0x40]
  }

  function Encode(s: string): seq<Octet> {
    if s == "" then [] else Utf8(s[0]) + Encode(s[1..])
  }

  function QuoteOctet(b: Octet): string {
    if Unreserved(b) then [b as char] else ['%', HexDigit(b / 16), HexDigit(b % 16)]
  }

  function QuoteOctets(bytes: seq<Octet>): string {
    if bytes == [] then "" else QuoteOctet(bytes[0]) + QuoteOctets(bytes[1..])
  }

  /** `quote(s, safe="")`. */
  function Quote(s: string): string {
    QuoteOctets(Encode(s))
  }

  function HexValue(c: char): nat {
    if '0' <= c <= '9' then c as nat - '0' as nat
    else if 'A' <= c <= 'F' then c as nat - 'A' as nat + 10
    else 0
  }

  /** Percent-decoding, RFC 3986 section 2.1. */
  function Unquote(s: string): seq<int>
    decreases |s|
  {
    if s == "" then []
    else if s[0] == '%' && |s| >= 3 then [16 * HexValue(s[1]) + HexValue(s[2])] + Unquote(s[3..])
    else [s[0] as int] + Unquote(s[1..])
  }

  lemma {:induction false} OctetIsSafe(b: Octet, c: char)
    requires c in QuoteOctet(b)
    ensures c != '{' && c != '}' && c != '/' && c != '?' && c != '#'
  {
  }

  /** An encoded value contains no brace and no URL delimiter. */
  lemma {:induction false} QuotedIsSafe(bytes: seq<Octet>)
    ensures BraceFree(QuoteOctets(bytes))
    ensures '/' !in QuoteOctets(bytes) && '?' !in QuoteOctets(bytes) && '#' !in QuoteOctets(bytes)
  {
    if bytes != [] {
      QuotedIsSafe(bytes[1..]);
      forall c | c in QuoteOctets(bytes) ensures c != '{' && c != '}' && c != '/' && c != '?' && c != '#' {
        if c in QuoteOctet(bytes[0]) {
          OctetIsSafe(bytes[0], c);
        }
      }
    }
  }

  /** Letters, digits and `-._~` stay as they are; everything else becomes octets in upper-case hexadecimal. */
  lemma {:induction false} QuoteKeepsUnreserved(s: string)
    requires forall c | c in s ::
      'a' <= c <= 'z' || 'A' <= c <= 'Z' || '0' <= c <= '9' || c == '-' || c == '.' || c == '_' || c == '~'
    ensures Quote(s) == s && Quote("/") == "%2F" && Quote(" ") == "%20" && Quote("%") == "%25"
  {
    if s != "" {
      assert s[0] in s && forall c | c in s[1..] :: c in s;
      QuoteKeepsUnreserved(s[1..]);
      QuoteFirst(s);
      assert [s[0]] + s[1..] == s;
    }
    QuoteFirst("/");
    QuoteFirst(" ");
    QuoteFirst("%");
    assert Quote("") == "";
  }

  lemma {:induction false} QuoteFirst(s: string)
    requires s != "" && s[0] as int < 0x80
    ensures Quote(s) == QuoteOctet(s[0] as int) + Quote(s[1..])
  {
    assert Utf8(s[0]) == [s[0] as int];
    assert Encode(s)[0] == s[0] as int && Encode(s)[1..] == Encode(s[1..]);
  }

  lemma {:induction false} UnquoteOctet(b: Octet, rest: string)
    ensures Unquote(QuoteOctet(b) + rest) == [b as int] + Unquote(rest)
  {
    var whole := QuoteOctet(b) + rest;
    if Unreserved(b) {
      assert whole[1..] == rest;
    } else {
      assert HexValue(HexDigit(b / 16)) == b / 16 && HexValue(HexDigit(b % 16)) == b % 16;
      assert whole[3..] == rest;
    }
  }

  /** Decoding restores the bytes of the value, so distinct payload bytes stay distinct on the wire. */
  lemma {:induction false} UnquoteQuote(bytes: seq<Octet>)
    ensures Unquote(QuoteOctets(bytes)) == bytes
  {
    if bytes != [] {
      UnquoteQuote(bytes[1..]);
      UnquoteOctet(bytes[0], QuoteOctets(bytes[1..]));
    }
  }

  /** How many octets the first character takes, by its first octet. */
  function FirstLength(bytes: seq<int>): nat
    requires bytes != []
  {
    if bytes[0] < 0x80 then 1 else if bytes[0] < 0xE0 then 2 else if bytes[0] < 0xF0 then 3 else 4
  }

  /** The code point those octets stand for. */
  function FirstCode(bytes: seq<int>): int
    requires bytes != [] && FirstLength(bytes) <= |bytes|
  {
    match FirstLength(bytes)
    case 1 => bytes[0]
    case 2 => (bytes[0] - 0xC0) * 0x40 + (bytes[1] - 0x80)
    case 3 => (bytes[0] - 0xE0) * 0x1000 + (bytes[1] - 0x80) * 0x40 + (bytes[2] - 0x80)
    case _ => (bytes[0] - 0xF0) * 0x40000 + (bytes[1] - 0x80) * 0x1000 + (bytes[2] - 0x80) * 0x40 + (bytes[3] - 0x80)
  }

  lemma {:induction false} SixBitGroups(n: nat)
    ensures n == n / 0x40 * 0x40 + n % 0x40
    ensures n == n / 0x1000 * 0x1000 + n / 0x40 % 0x40 * 0x40 + n % 0x40
    ensures n == n / 0x40000 * 0x40000 + n / 0x1000 % 0x40 * 0x1000 + n / 0x40 % 0x40 * 0x40 + n % 0x40
  {
    var a := n / 0x40;
    var b := a / 0x40;
    assert b == n / 0x1000 && b / 0x40 == n / 0x40000;
    assert a == b * 0x40 + a % 0x40 && b == b / 0x40 * 0x40 + b % 0x40;
  }

  /** The first character can be read off its octets, whatever follows. */
  lemma {:induction false} Utf8First(c: char, rest: seq<Octet>)
    ensures FirstLength(Utf8(c) + rest) == |Utf8(c)|
    ensures FirstCode(Utf8(c) + rest) == c as int
  {
    SixBitGroups(c as int);
  }

  lemma {:induction false} EncodeInjective(s: string, t: string)
    requires Encode(s) == Encode(t)
    ensures s == t
  {
    if s != "" && t != "" {
      Utf8First(s[0], Encode(s[1..]));
      Utf8First(t[0], Encode(t[1..]));
      assert s[0] == t[0];
      assert Encode(s)[|Utf8(s[0])|..] == Encode(s[1..]) && Encode(t)[|Utf8(t[0])|..] == Encode(t[1..]);
      EncodeInjective(s[1..], t[1..]);
      assert s == [s[0]] + s[1..] && t == [t[0]] + t[1..];
    }
  }

  /** Percent-encoding loses nothing: different values are different on the wire. */
  lemma {:induction false} QuoteInjective(s: string, t: string)
    requires Quote(s) == Quote(t)
    ensures s == t
  {
    UnquoteQuote(Encode(s));
    UnquoteQuote(Encode(t));
    EncodeInjective(s, t);
  }
}
