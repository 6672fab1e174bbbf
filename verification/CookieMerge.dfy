/** Folding Set-Cookie headers into a Cookie header (icloud_gateway/hme.py): text in, text out,
    and in between a map that must survive the trip. */
module CookieMerge {
  import opened Options

  type Pair = (string, string)

  // ---------------------------------------------------------------- text

  /** Python's str.strip and \s. */
  predicate Space(c: char) {
    var n := c as int;
    || 9 <= n <= 13 || 28 <= n <= 32 || n == 0x85 || n == 0xA0 || n == 0x1680 || 0x2000 <= n <= 0x200A
    || n == 0x2028 || n == 0x2029 || n == 0x202F || n == 0x205F || n == 0x3000
  }

  function StripLeft(s: string): (r: string)
    ensures r == "" || !Space(r[0])
    ensures forall c | c in r :: c in s
  {
    if s != "" && Space(s[0]) then StripLeft(s[1..]) else s
  }

  function StripRight(s: string): (r: string)
    ensures r == "" || !Space(r[|r| - 1])
    ensures r <= s
  {
    if s != "" && Space(s[|s| - 1]) then StripRight(s[..|s| - 1]) else s
  }

  function Strip(s: string): (r: string)
    ensures Stripped(r) && forall c | c in r :: c in s
  {
    StripRight(StripLeft(s))
  }

  predicate Stripped(s: string) { s == "" || (!Space(s[0]) && !Space(s[|s| - 1])) }

  /** The place of the first c, or the length of the text. */
  function Find(s: string, c: char): (i: nat)
    ensures i <= |s| && c !in s[..i] && (i < |s| ==> s[i] == c)
  {
    if s == "" || s[0] == c then 0 else
    assert s[..Find(s[1..], c) + 1] == [s[0]] + s[1..][..Find(s[1..], c)];
    Find(s[1..], c) + 1
  }

  lemma {:induction false} FindIs(a: string, c: char, b: string)
    requires c !in a
    ensures Find(a + [c] + b, c) == |a| && (Find(a, c) == |a|)
  {
    if a != "" {
      FindIs(a[1..], c, b);
      assert (a + [c] + b)[1..] == a[1..] + [c] + b;
    }
  }

  function Split(s: string, c: char): (parts: seq<string>)
    ensures parts != [] && forall p | p in parts :: c !in p
    decreases |s|
  {
    var i := Find(s, c);
    if i == |s| then (assert s[..i] == s; [s]) else [s[..i]] + Split(s[i + 1..], c)
  }

  // ---------------------------------------------------------------- pairs

  predicate NoBreak(s: string) { '\r' !in s && '\n' !in s }

  /** One part of a Cookie header. */
  function PairOf(part: string): Option<Pair> {
    var i := Find(part, '=');
    if i == |part| then None else
    var name := Strip(part[..i]);
    if name == "" || !NoBreak(name) then None else Some((name, Strip(part[i + 1..])))
  }

  /** One cookie of a Set-Cookie header: everything from the first semicolon on is dropped, and a
      line break anywhere in the value rejects it. */
  function SetPairOf(cookie: string): Option<Pair> {
    var first := cookie[..Find(cookie, ';')];
    var i := Find(first, '=');
    if i == |first| || !NoBreak(first[i + 1..]) then None else PairOf(first)
  }

  function Collect(parts: seq<string>, read: string -> Option<Pair>): seq<Pair> {
    if parts == [] then [] else
    Collect(parts[..|parts| - 1], read)
    + if read(parts[|parts| - 1]).Some? then [read(parts[|parts| - 1]).value] else []
  }

  function Pairs(header: string): seq<Pair> { Collect(Split(header, ';'), PairOf) }

  predicate TokenChar(c: char) {
    || 'a' <= c <= 'z' || 'A' <= c <= 'Z' || '0' <= c <= '9'
    || c in {'!', '#', '$', '%', '&', '\'', '*', '+', '-', '.', '^', '_', '`', '|', '~'}
  }

  /** The text after a comma that separates cookies: spaces, a token, an equals sign. */
  predicate StartsCookie(s: string, inToken: bool) {
    s != "" && (
      if TokenChar(s[0]) then StartsCookie(s[1..], true)
      else if inToken then s[0] == '='
      else Space(s[0]) && StartsCookie(s[1..], false))
  }

  /** Where the first separating comma is, from i on. */
  function NextComma(s: string, i: nat): (k: nat)
    requires i <= |s|
    ensures i <= k <= |s|
    decreases |s| - i
  {
    if i == |s| || (s[i] == ',' && StartsCookie(s[i + 1..], false)) then i else NextComma(s, i + 1)
  }

  /** A combined header split into its cookies. */
  function Cookies(s: string): seq<string>
    decreases |s|
  {
    var k := NextComma(s, 0);
    if k == |s| then [s] else [s[..k]] + Cookies(s[k + 1..])
  }

  function SetPairs(headers: seq<string>): seq<Pair> {
    if headers == [] then [] else
    SetPairs(headers[..|headers| - 1]) + Collect(Cookies(headers[|headers| - 1]), SetPairOf)
  }

  // ---------------------------------------------------------------- what the splitting means

  lemma SpaceIs(c: char)
    ensures Space(c) <==> c as int in {9, 10, 11, 12, 13, 28, 29, 30, 31, 32, 0x85, 0xA0, 0x1680, 0x2000, 0x2001,
                                       0x2002, 0x2003, 0x2004, 0x2005, 0x2006, 0x2007, 0x2008, 0x2009, 0x200A,
                                       0x2028, 0x2029, 0x202F, 0x205F, 0x3000}
  {}

  /** The token characters of section 3.2.6 of RFC 7230: printable ASCII without the delimiters. */
  predicate Tchar(c: char) {
    33 <= c as int <= 126
    && c !in {'"', '(', ')', ',', '/', ':', ';', '<', '=', '>', '?', '@', '[', '\\', ']', '{', '}'}
  }

  lemma TokenIs(c: char)
    ensures TokenChar(c) <==> Tchar(c)
  {}

  /** A cookie starts here: spaces up to k, a token up to m, an equals sign. */
  predicate NameAt(s: string, k: int, m: int) {
    && 0 <= k < m < |s| && s[m] == '='
    && (forall i | 0 <= i < k :: Space(s[i])) && (forall i | k <= i < m :: Tchar(s[i]))
  }

  ghost predicate Begins(s: string) { exists k, m :: NameAt(s, k, m) }

  predicate TokenAt(s: string, m: int) { 0 <= m < |s| && s[m] == '=' && forall i | 0 <= i < m :: Tchar(s[i]) }

  lemma {:induction false} TokenEnds(s: string)
    ensures StartsCookie(s, true) <==> exists m :: TokenAt(s, m)
  {
    if s != "" {
      TokenIs(s[0]);
      TokenEnds(s[1..]);
      if TokenChar(s[0]) {
        assert forall m | TokenAt(s, m) :: m > 0 && TokenAt(s[1..], m - 1);
        assert forall m | TokenAt(s[1..], m) :: TokenAt(s, m + 1);
      } else if s[0] == '=' {
        assert TokenAt(s, 0);
      }
    }
  }

  /** The test is for spaces, a token and an equals sign at the front. */
  lemma {:induction false} StartsIs(s: string)
    ensures StartsCookie(s, false) <==> Begins(s)
  {
    if s != "" {
      TokenIs(s[0]);
      if TokenChar(s[0]) {
        TokenEnds(s[1..]);
        assert forall k, m | NameAt(s, k, m) :: k == 0 && TokenAt(s[1..], m - 1);
        assert forall m | TokenAt(s[1..], m) :: NameAt(s, 0, m + 1);
      } else if Space(s[0]) {
        StartsIs(s[1..]);
        assert forall k, m | NameAt(s, k, m) :: k > 0 && NameAt(s[1..], k - 1, m - 1);
        assert forall k, m | NameAt(s[1..], k, m) :: NameAt(s, k + 1, m + 1);
      } else {
        assert forall k, m :: !NameAt(s, k, m);
      }
    }
  }

  /** A text cut into its cookies: no comma inside one is followed by the start of another. */
  ghost predicate Uncut(cookie: string) { forall i | 0 <= i < |cookie| && cookie[i] == ',' :: !Begins(cookie[i + 1..]) }

  /** ",".join(...) */
  function Commas(cookies: seq<string>): string
    requires cookies != []
  {
    if |cookies| == 1 then cookies[0] else cookies[0] + [','] + Commas(cookies[1..])
  }

  /** A comma ends the test, so that what follows it does not matter. */
  lemma {:induction false} StartsLocal(q: string, rest: string, inToken: bool)
    ensures StartsCookie(q + [','] + rest, inToken) == StartsCookie(q, inToken)
  {
    if q == "" {
      assert (q + [','] + rest)[0] == ',';
    } else {
      assert (q + [','] + rest)[0] == q[0] && (q + [','] + rest)[1..] == q[1..] + [','] + rest;
      StartsLocal(q[1..], rest, true);
      StartsLocal(q[1..], rest, false);
    }
  }

  /** From inside an uncut text the next separating comma is the one behind it. */
  lemma {:induction false} CommaBehind(p: string, rest: string, i: nat)
    requires Uncut(p) && Begins(rest) && i <= |p|
    ensures NextComma(p + [','] + rest, i) == |p|
    decreases |p| - i
  {
    var s := p + [','] + rest;
    if i == |p| {
      assert s[i + 1..] == rest;
      StartsIs(rest);
    } else {
      assert s[i + 1..] == p[i + 1..] + [','] + rest;
      StartsLocal(p[i + 1..], rest, false);
      StartsIs(p[i + 1..]);
      CommaBehind(p, rest, i + 1);
    }
  }

  lemma {:induction false} NoCommaBehind(p: string, i: nat)
    requires Uncut(p) && i <= |p|
    ensures NextComma(p, i) == |p|
    decreases |p| - i
  {
    if i < |p| {
      StartsIs(p[i + 1..]);
      NoCommaBehind(p, i + 1);
    }
  }

  /** Cookies, each without the start of another behind a comma, and all but the first starting as
      a cookie does. */
  ghost predicate Separate(cookies: seq<string>) {
    cookies != [] && (forall i | 0 <= i < |cookies| :: Uncut(cookies[i]))
    && forall i | 0 < i < |cookies| :: Begins(cookies[i])
  }

  lemma CommasBegin(cookies: seq<string>)
    requires Separate(cookies) && Begins(cookies[0])
    ensures Begins(Commas(cookies))
  {
    if |cookies| > 1 {
      StartsIs(cookies[0]);
      StartsLocal(cookies[0], Commas(cookies[1..]), false);
      StartsIs(Commas(cookies));
    }
  }

  lemma FirstCookie(first: string, rest: string)
    requires Uncut(first) && Begins(rest)
    ensures Cookies(first + [','] + rest) == [first] + Cookies(rest)
  {
    var s := first + [','] + rest;
    CommaBehind(first, rest, 0);
    assert s[..|first|] == first && s[|first| + 1..] == rest;
  }

  lemma TailIsSeparate(cookies: seq<string>)
    requires Separate(cookies) && |cookies| > 1
    ensures Separate(cookies[1..]) && Begins(cookies[1..][0]) && cookies == [cookies[0]] + cookies[1..]
  {
    forall i | 0 <= i < |cookies| - 1 ensures Uncut(cookies[1..][i]) && Begins(cookies[1..][i]) {
      assert cookies[1..][i] == cookies[i + 1];
    }
  }

  /** Splitting undoes joining: a header that combines cookies is split into exactly these, and no
      comma of a date cuts one. */
  lemma {:induction false} SplitJoined(cookies: seq<string>)
    requires Separate(cookies)
    ensures Cookies(Commas(cookies)) == cookies
    decreases |cookies|
  {
    if |cookies| == 1 {
      NoCommaBehind(cookies[0], 0);
    } else {
      TailIsSeparate(cookies);
      CommasBegin(cookies[1..]);
      FirstCookie(cookies[0], Commas(cookies[1..]));
      SplitJoined(cookies[1..]);
    }
  }

  lemma {:induction false} NextCommaIs(s: string, i: nat)
    requires i <= |s|
    ensures var k := NextComma(s, i);
            && (k < |s| ==> s[k] == ',' && Begins(s[k + 1..]))
            && forall j | i <= j < k && s[j] == ',' :: !Begins(s[j + 1..])
    decreases |s| - i
  {
    if i < |s| {
      StartsIs(s[i + 1..]);
      NextCommaIs(s, i + 1);
    }
  }

  lemma FrontIsUncut(s: string, k: nat)
    requires k == NextComma(s, 0) && k < |s|
    ensures Uncut(s[..k])
    ensures Begins(s) ==> Begins(s[..k])
  {
    NextCommaIs(s, 0);
    forall j | 0 <= j < k && s[..k][j] == ',' ensures !Begins(s[..k][j + 1..]) {
      assert s[j + 1..] == s[..k][j + 1..] + [','] + s[k + 1..];
      StartsLocal(s[..k][j + 1..], s[k + 1..], false);
      StartsIs(s[j + 1..]);
      StartsIs(s[..k][j + 1..]);
    }
    assert s == s[..k] + [','] + s[k + 1..];
    StartsLocal(s[..k], s[k + 1..], false);
    StartsIs(s);
    StartsIs(s[..k]);
  }

  lemma WholeIsUncut(s: string)
    requires NextComma(s, 0) == |s|
    ensures Uncut(s)
  {
    NextCommaIs(s, 0);
  }

  lemma OneMoreCookie(first: string, cookies: seq<string>)
    requires Uncut(first) && Separate(cookies) && Begins(cookies[0])
    ensures Separate([first] + cookies) && Commas([first] + cookies) == first + [','] + Commas(cookies)
  {
    var all := [first] + cookies;
    assert all[1..] == cookies;
    forall i | 0 <= i < |all| ensures Uncut(all[i]) && (i > 0 ==> Begins(all[i])) {
      if i > 0 {
        assert all[i] == cookies[i - 1];
      }
    }
  }

  lemma FirstBegins(s: string)
    requires Begins(s)
    ensures Begins(Cookies(s)[0])
  {
    var k := NextComma(s, 0);
    if k < |s| {
      FrontIsUncut(s, k);
    }
  }

  lemma CutText(s: string, k: nat)
    requires k == NextComma(s, 0) && k < |s|
    ensures Cookies(s) == [s[..k]] + Cookies(s[k + 1..])
  {}

  lemma CutBegins(s: string, k: nat)
    requires k == NextComma(s, 0) && k < |s|
    ensures s[k] == ',' && Begins(s[k + 1..])
  {
    NextCommaIs(s, 0);
  }

  lemma JoinStep(s: string, k: nat, first: string, rest: seq<string>)
    requires k < |s| && s[k] == ',' && first == s[..k] && Uncut(first)
    requires Separate(rest) && Begins(rest[0]) && Commas(rest) == s[k + 1..]
    ensures Separate([first] + rest) && Commas([first] + rest) == s
  {
    OneMoreCookie(first, rest);
    assert s == first + [','] + s[k + 1..];
  }

  /** And joining undoes splitting: every header is split into separate cookies. */
  lemma {:induction false} JoinSplit(s: string)
    ensures Separate(Cookies(s)) && Commas(Cookies(s)) == s
    decreases |s|
  {
    var k := NextComma(s, 0);
    if k == |s| {
      WholeIsUncut(s);
    } else {
      JoinSplit(s[k + 1..]);
      CutText(s, k);
      CutBegins(s, k);
      FrontIsUncut(s, k);
      FirstBegins(s[k + 1..]);
      JoinStep(s, k, s[..k], Cookies(s[k + 1..]));
    }
  }

  /** What one cookie says: the text before the first equals sign and the text between it and the
      first semicolon, both stripped; without a name, or with a line break, nothing. */
  lemma SetPairIs(name: string, value: string, attributes: string)
    requires '=' !in name && ';' !in name && ';' !in value && (attributes == "" || attributes[0] == ';')
    ensures SetPairOf(name + ['='] + value + attributes)
         == if Strip(name) == "" || '\r' in Strip(name) || '\n' in Strip(name) || '\r' in value || '\n' in value
            then None else Some((Strip(name), Strip(value)))
    ensures SetPairOf(name + attributes) == None
  {
    var first := name + ['='] + value;
    FrontOf(first, attributes);
    FrontOf(name, attributes);
    FindIs(name, '=', value);
    assert first[..|name|] == name && first[|name| + 1..] == value;
    FindIs(name, '=', "");
  }

  lemma FrontOf(first: string, attributes: string)
    requires ';' !in first && (attributes == "" || attributes[0] == ';')
    ensures (first + attributes)[..Find(first + attributes, ';')] == first
  {
    if attributes == "" {
      FindIs(first, ';', "");
      assert first + attributes == first;
    } else {
      FrontOfMore(first, attributes[1..]);
      assert first + attributes == first + [';'] + attributes[1..];
    }
  }

  lemma FrontOfMore(first: string, more: string)
    requires ';' !in first
    ensures (first + [';'] + more)[..Find(first + [';'] + more, ';')] == first
  {
    FindIs(first, ';', more);
  }

  // ---------------------------------------------------------------- the jar

  datatype Jar = Jar(order: seq<string>, values: map<string, string>)

  const EMPTY := Jar([], map[])

  function Put(jar: Jar, p: Pair): Jar {
    Jar(if p.0 in jar.values then jar.order else jar.order + [p.0], jar.values[p.0 := p.1])
  }

  function PutAll(jar: Jar, pairs: seq<Pair>): Jar {
    if pairs == [] then jar else Put(PutAll(jar, pairs[..|pairs| - 1]), pairs[|pairs| - 1])
  }

  function Parse(header: string): Jar { PutAll(EMPTY, Pairs(header)) }

  function Item(jar: Jar, name: string): string
    requires name in jar.values
  {
    name + "=" + jar.values[name]
  }

  /** "; ".join(...) */
  function Joined(jar: Jar, names: seq<string>): string
    requires forall n | n in names :: n in jar.values
  {
    if names == [] then "" else if |names| == 1 then Item(jar, names[0])
    else Item(jar, names[0]) + [';'] + ([' '] + Joined(jar, names[1..]))
  }

  predicate Plain(p: Pair) {
    && p.0 != "" && Stripped(p.0) && NoBreak(p.0) && '=' !in p.0 && ';' !in p.0
    && Stripped(p.1) && ';' !in p.1
  }

  predicate JarSound(jar: Jar) {
    && (forall i, j | 0 <= i < j < |jar.order| :: jar.order[i] != jar.order[j])
    && (forall n | n in jar.order :: n in jar.values) && (forall n | n in jar.values :: n in jar.order)
    && (forall n | n in jar.values :: Plain((n, jar.values[n])))
  }

  function Print(jar: Jar): string
    requires JarSound(jar)
  {
    Joined(jar, jar.order)
  }

  // ---------------------------------------------------------------- what is read is plain

  lemma PairIsPlain(part: string)
    requires ';' !in part && PairOf(part).Some?
    ensures Plain(PairOf(part).value)
  {
    var i := Find(part, '=');
    assert forall c | c in part[..i] :: c in part;
    assert forall c | c in part[i + 1..] :: c in part;
  }

  lemma {:induction false} PairsArePlain(parts: seq<string>)
    requires forall p | p in parts :: ';' !in p
    ensures forall p | p in Collect(parts, PairOf) :: Plain(p)
  {
    if parts != [] {
      var init, last := parts[..|parts| - 1], parts[|parts| - 1];
      PairsArePlain(init);
      assert last in parts;
      if PairOf(last).Some? {
        PairIsPlain(last);
      }
    }
  }

  lemma {:induction false} CookiePairsArePlain(cookies: seq<string>)
    ensures forall p | p in Collect(cookies, SetPairOf) :: Plain(p)
  {
    if cookies != [] {
      var init, last := cookies[..|cookies| - 1], cookies[|cookies| - 1];
      CookiePairsArePlain(init);
      if SetPairOf(last).Some? {
        PairIsPlain(last[..Find(last, ';')]);
      }
    }
  }

  lemma {:induction false} SetPairsArePlain(headers: seq<string>)
    ensures forall p | p in SetPairs(headers) :: Plain(p)
  {
    if headers != [] {
      SetPairsArePlain(headers[..|headers| - 1]);
      CookiePairsArePlain(Cookies(headers[|headers| - 1]));
    }
  }

  lemma {:induction false} PutAllSound(jar: Jar, pairs: seq<Pair>)
    requires JarSound(jar) && forall p | p in pairs :: Plain(p)
    ensures JarSound(PutAll(jar, pairs))
  {
    if pairs != [] {
      PutAllSound(jar, pairs[..|pairs| - 1]);
      assert pairs[|pairs| - 1] in pairs;
    }
  }

  lemma ParseSound(header: string)
    ensures JarSound(Parse(header))
  {
    PairsArePlain(Split(header, ';'));
    PutAllSound(EMPTY, Pairs(header));
  }

  // ---------------------------------------------------------------- printing and reading back

  lemma StripKeeps(s: string)
    requires Stripped(s)
    ensures Strip(s) == s && (s != "" ==> Strip([' '] + s) == s)
  {
    if s != "" {
      assert ([' '] + s)[1..] == s;
    }
  }

  lemma PairOfText(name: string, value: string)
    requires '=' !in name && Strip(name) != "" && NoBreak(Strip(name))
    ensures PairOf(name + ['='] + value) == Some((Strip(name), Strip(value)))
  {
    var text := name + ['='] + value;
    FindIs(name, '=', value);
    assert text[..|name|] == name && text[|name| + 1..] == value;
  }

  lemma TextReads(p: Pair)
    requires Plain(p)
    ensures PairOf(p.0 + ['='] + p.1) == Some(p)
  {
    StripKeeps(p.0);
    StripKeeps(p.1);
    PairOfText(p.0, p.1);
  }

  lemma SpacedTextReads(p: Pair)
    requires Plain(p)
    ensures PairOf([' '] + p.0 + ['='] + p.1) == Some(p)
  {
    StripKeeps(p.0);
    StripKeeps(p.1);
    PairOfText([' '] + p.0, p.1);
  }

  /** An item reads back as its pair, also behind the space of the separator. */
  lemma ItemReads(p: Pair)
    requires Plain(p)
    ensures PairOf(p.0 + "=" + p.1) == Some(p) && PairOf([' '] + (p.0 + "=" + p.1)) == Some(p)
    ensures ';' !in p.0 + "=" + p.1
  {
    TextReads(p);
    SpacedTextReads(p);
    assert [' '] + (p.0 + "=" + p.1) == [' '] + p.0 + ['='] + p.1;
  }

  lemma SplitFirst(a: string, b: string)
    requires ';' !in a
    ensures Split(a, ';') == [a] && Split(a + [';'] + b, ';') == [a] + Split(b, ';')
  {
    FindIs(a, ';', b);
    assert (a + [';'] + b)[..|a|] == a && (a + [';'] + b)[|a| + 1..] == b;
  }

  function PairsIn(jar: Jar, names: seq<string>): seq<Pair>
    requires forall n | n in names :: n in jar.values
  {
    seq(|names|, i requires 0 <= i < |names| => (assert names[i] in names; (names[i], jar.values[names[i]])))
  }

  lemma {:induction false} CollectFront(part: string, parts: seq<string>, read: string -> Option<Pair>)
    ensures Collect([part] + parts, read) == Collect([part], read) + Collect(parts, read)
  {
    if parts == [] {
      assert [part] + parts == [part];
    } else {
      CollectFront(part, parts[..|parts| - 1], read);
      assert ([part] + parts)[..|parts|] == [part] + parts[..|parts| - 1];
    }
  }

  lemma OnePair(item: string, more: string, p: Pair)
    requires ';' !in item && PairOf(item) == Some(p)
    ensures Pairs(item) == [p] && Pairs(item + [';'] + more) == [p] + Pairs(more)
  {
    SplitFirst(item, more);
    CollectFront(item, Split(more, ';'), PairOf);
    assert [item][..0] == [];
    assert Collect([item], PairOf) == [p];
  }

  lemma SpaceInFront(a: string, b: string)
    ensures [' '] + (a + [';'] + b) == ([' '] + a) + [';'] + b
  {}

  /** Names that read back as `pairs`, with one more item in front. */
  lemma OneMore(item: string, p: Pair, tail: string, pairs: seq<Pair>)
    requires ';' !in item && PairOf(item) == Some(p) && PairOf([' '] + item) == Some(p)
    requires Pairs([' '] + tail) == pairs
    ensures Pairs(item + [';'] + ([' '] + tail)) == [p] + pairs
    ensures Pairs([' '] + (item + [';'] + ([' '] + tail))) == [p] + pairs
  {
    OnePair(item, [' '] + tail, p);
    OnePair([' '] + item, [' '] + tail, p);
    SpaceInFront(item, [' '] + tail);
  }

  lemma NamedItemReads(jar: Jar, name: string)
    requires JarSound(jar) && name in jar.values
    ensures var p, item := (name, jar.values[name]), Item(jar, name);
            ';' !in item && PairOf(item) == Some(p) && PairOf([' '] + item) == Some(p)
  {
    ItemReads((name, jar.values[name]));
  }

  lemma PairsInFront(jar: Jar, names: seq<string>)
    requires names != [] && forall n | n in names :: n in jar.values
    ensures PairsIn(jar, names) == [(names[0], jar.values[names[0]])] + PairsIn(jar, names[1..])
  {}

  lemma {:induction false} JoinedReads(jar: Jar, names: seq<string>)
    requires JarSound(jar) && names != [] && forall n | n in names :: n in jar.values
    ensures Pairs(Joined(jar, names)) == PairsIn(jar, names) && Pairs([' '] + Joined(jar, names)) == PairsIn(jar, names)
    decreases |names|
  {
    var p, item, rest := (names[0], jar.values[names[0]]), Item(jar, names[0]), names[1..];
    NamedItemReads(jar, names[0]);
    PairsInFront(jar, names);
    if rest == [] {
      OnePair(item, "", p);
      OnePair([' '] + item, "", p);
    } else {
      JoinedReads(jar, rest);
      OneMore(item, p, Joined(jar, rest), PairsIn(jar, rest));
    }
  }

  lemma NothingReads()
    ensures Pairs("") == []
  {
    SplitFirst("", "");
    assert [""][..0] == [];
  }

  function Restricted(jar: Jar, names: seq<string>): map<string, string>
    requires forall n | n in names :: n in jar.values
  {
    map n | n in names :: jar.values[n]
  }

  lemma RestrictedStep(jar: Jar, names: seq<string>, name: string)
    requires name in jar.values && forall n | n in names :: n in jar.values
    ensures Restricted(jar, names + [name]) == Restricted(jar, names)[name := jar.values[name]]
    ensures PairsIn(jar, names + [name]) == PairsIn(jar, names) + [(name, jar.values[name])]
  {}

  lemma {:induction false} PutBack(jar: Jar, names: seq<string>)
    requires forall n | n in names :: n in jar.values
    requires forall i, j | 0 <= i < j < |names| :: names[i] != names[j]
    ensures PutAll(EMPTY, PairsIn(jar, names)) == Jar(names, Restricted(jar, names))
  {
    if names != [] {
      var init, last := names[..|names| - 1], names[|names| - 1];
      PutBack(jar, init);
      RestrictedStep(jar, init, last);
      assert names == init + [last];
      PutOne(EMPTY, PairsIn(jar, init), (last, jar.values[last]));
    }
  }

  lemma PutOne(jar: Jar, pairs: seq<Pair>, p: Pair)
    ensures PutAll(jar, pairs + [p]) == Put(PutAll(jar, pairs), p)
  {
    assert (pairs + [p])[..|pairs|] == pairs;
  }

  /** Printing loses nothing: reading the printed header gives the same jar. */
  lemma PrintThenParse(jar: Jar)
    requires JarSound(jar)
    ensures Parse(Print(jar)) == jar
  {
    PrintReads(jar);
    PutBack(jar, jar.order);
    WholeJar(jar);
  }

  lemma PrintReads(jar: Jar)
    requires JarSound(jar)
    ensures Pairs(Print(jar)) == PairsIn(jar, jar.order)
  {
    if jar.order == [] {
      NothingReads();
    } else {
      JoinedReads(jar, jar.order);
    }
  }

  lemma WholeJar(jar: Jar)
    requires JarSound(jar)
    ensures Restricted(jar, jar.order) == jar.values
  {}

  // ---------------------------------------------------------------- merging

  function Merged(header: string, sets: seq<string>): string {
    ParseSound(header);
    SetPairsArePlain(sets);
    PutAllSound(Parse(header), SetPairs(sets));
    Print(PutAll(Parse(header), SetPairs(sets)))
  }

  lemma {:induction false} UncutPairs(cookies: seq<string>)
    requires forall c | c in cookies :: Uncut(c)
    ensures SetPairs(cookies) == Collect(cookies, SetPairOf)
  {
    if cookies != [] {
      var init, last := cookies[..|cookies| - 1], cookies[|cookies| - 1];
      assert last in cookies && [last][..0] == [];
      UncutPairs(init);
      NoCommaBehind(last, 0);
      assert Cookies(last) == [last];
      assert Collect(Cookies(last), SetPairOf) == if SetPairOf(last).Some? then [SetPairOf(last).value] else [];
    }
  }

  /** One header that combines cookies counts like a header for each of them. */
  lemma CombinedLikeSingle(header: string, cookies: seq<string>)
    requires Separate(cookies)
    ensures Merged(header, [Commas(cookies)]) == Merged(header, cookies)
  {
    SplitJoined(cookies);
    UncutPairs(cookies);
    assert [Commas(cookies)][..0] == [];
    assert SetPairs([Commas(cookies)]) == Collect(cookies, SetPairOf);
  }

  /** The last pair of a name. */
  function Latest(pairs: seq<Pair>, name: string): Option<string> {
    if pairs == [] then None
    else if pairs[|pairs| - 1].0 == name then Some(pairs[|pairs| - 1].1)
    else Latest(pairs[..|pairs| - 1], name)
  }

  /** Names in the order of their first appearance, after the ones already there. */
  function FirstSeen(order: seq<string>, pairs: seq<Pair>): seq<string> {
    if pairs == [] then order else
    var before := FirstSeen(order, pairs[..|pairs| - 1]);
    if pairs[|pairs| - 1].0 in before then before else before + [pairs[|pairs| - 1].0]
  }

  /** The last pair of the name decides; without one the name is as it was. */
  predicate Replaced(jar: Jar, pairs: seq<Pair>, after: Jar, n: string) {
    if Latest(pairs, n).Some? then n in after.values && after.values[n] == Latest(pairs, n).value
    else (n in after.values <==> n in jar.values) && (n in jar.values ==> after.values[n] == jar.values[n])
  }

  lemma {:induction false} PutAllIs(jar: Jar, pairs: seq<Pair>)
    requires forall n :: n in jar.order <==> n in jar.values
    ensures var after := PutAll(jar, pairs);
            && after.order == FirstSeen(jar.order, pairs)
            && (forall n :: n in after.order <==> n in after.values)
            && forall n :: Replaced(jar, pairs, after, n)
  {
    if pairs != [] {
      var init := pairs[..|pairs| - 1];
      PutAllIs(jar, init);
      forall n ensures Replaced(jar, pairs, PutAll(jar, pairs), n) {
        assert Replaced(jar, init, PutAll(jar, init), n);
      }
    }
  }

  /** Reading the merged header gives the old map updated by the Set-Cookie pairs, the last one
      winning; old names keep their places and new ones follow as they were first seen. */
  lemma MergeIsUpdate(header: string, sets: seq<string>)
    ensures var was, now, pairs := Parse(header), Parse(Merged(header, sets)), SetPairs(sets);
            && now.order == FirstSeen(was.order, pairs) && was.order <= now.order
            && forall n :: Replaced(was, pairs, now, n)
  {
    MergedReads(header, sets);
    ParseSound(header);
    PutAllIs(Parse(header), SetPairs(sets));
    FirstSeenGrows(Parse(header).order, SetPairs(sets));
  }

  lemma MergedReads(header: string, sets: seq<string>)
    ensures Parse(Merged(header, sets)) == PutAll(Parse(header), SetPairs(sets))
  {
    ParseSound(header);
    SetPairsArePlain(sets);
    PutAllSound(Parse(header), SetPairs(sets));
    PrintThenParse(PutAll(Parse(header), SetPairs(sets)));
  }

  lemma {:induction false} FirstSeenGrows(order: seq<string>, pairs: seq<Pair>)
    ensures order <= FirstSeen(order, pairs) && forall p | p in pairs :: p.0 in FirstSeen(order, pairs)
  {
    if pairs != [] {
      FirstSeenGrows(order, pairs[..|pairs| - 1]);
      assert pairs == pairs[..|pairs| - 1] + [pairs[|pairs| - 1]];
    }
  }

  lemma {:induction false} NothingNew(order: seq<string>, pairs: seq<Pair>)
    requires forall p | p in pairs :: p.0 in order
    ensures FirstSeen(order, pairs) == order
  {
    if pairs != [] {
      NothingNew(order, pairs[..|pairs| - 1]);
      assert pairs[|pairs| - 1] in pairs;
    }
  }

  /** Merging the same headers again changes nothing. */
  lemma MergeTwice(header: string, sets: seq<string>)
    ensures Merged(Merged(header, sets), sets) == Merged(header, sets)
  {
    var jar, pairs := Parse(header), SetPairs(sets);
    var once := PutAll(jar, pairs);
    MergedReads(header, sets);
    ParseSound(header);
    PutAllIs(jar, pairs);
    PutAllIs(once, pairs);
    FirstSeenGrows(jar.order, pairs);
    NothingNew(once.order, pairs);
    SameValues(jar, pairs, once, PutAll(once, pairs));
  }

  lemma SameValues(jar: Jar, pairs: seq<Pair>, once: Jar, twice: Jar)
    requires forall n :: Replaced(jar, pairs, once, n) && Replaced(once, pairs, twice, n)
    ensures once.values == twice.values
  {
    forall n ensures n in once.values <==> n in twice.values
      ensures n in once.values ==> once.values[n] == twice.values[n]
    {
      assert Replaced(jar, pairs, once, n) && Replaced(once, pairs, twice, n);
    }
  }

  // ---------------------------------------------------------------- the loops

  /** _cookie_pairs */
  method CookiePairs(header: string) returns (order: seq<string>, values: map<string, string>)
    ensures Jar(order, values) == Parse(header)
  {
    var parts := Split(header, ';');
    order, values := [], map[];
    for i := 0 to |parts|
      invariant Jar(order, values) == PutAll(EMPTY, Collect(parts[..i], PairOf))
    {
      PutNext(EMPTY, parts, i, PairOf);
      var pair := PairOf(parts[i]);
      if pair.Some? {
        if pair.value.0 !in values {
          order := order + [pair.value.0];
        }
        values := values[pair.value.0 := pair.value.1];
      }
    }
    assert parts[..|parts|] == parts;
  }

  lemma PutNext(jar: Jar, parts: seq<string>, i: nat, read: string -> Option<Pair>)
    requires i < |parts|
    ensures var before := PutAll(jar, Collect(parts[..i], read));
            PutAll(jar, Collect(parts[..i + 1], read))
            == if read(parts[i]).Some? then Put(before, read(parts[i]).value) else before
  {
    var done := Collect(parts[..i], read);
    assert parts[..i + 1][..i] == parts[..i];
    if read(parts[i]).Some? {
      assert (done + [read(parts[i]).value])[..|done|] == done;
    } else {
      assert done + [] == done;
    }
  }

  /** merge_set_cookie_headers */
  method MergeSetCookieHeaders(header: string, sets: seq<string>) returns (merged: string)
    ensures merged == Merged(header, sets)
  {
    var order, values := CookiePairs(header);
    ParseSound(header);
    SetPairsArePlain(sets);
    PutAllSound(Parse(header), SetPairs(sets));
    for i := 0 to |sets|
      invariant Jar(order, values) == PutAll(Parse(header), SetPairs(sets[..i]))
    {
      assert sets[..i + 1][..i] == sets[..i];
      ghost var jar := Jar(order, values);
      order, values := TakeCookies(order, values, sets[i]);
      PutAllJoined(Parse(header), SetPairs(sets[..i]), Collect(Cookies(sets[i]), SetPairOf));
    }
    assert sets[..|sets|] == sets;
    merged := Print(Jar(order, values));
  }

  lemma {:induction false} PutAllJoined(jar: Jar, a: seq<Pair>, b: seq<Pair>)
    ensures PutAll(PutAll(jar, a), b) == PutAll(jar, a + b)
  {
    if b == [] {
      assert a + b == a;
    } else {
      PutAllJoined(jar, a, b[..|b| - 1]);
      assert (a + b)[..|a + b| - 1] == a + b[..|b| - 1];
    }
  }

  /** The inner loop of merge_set_cookie_headers, for one combined header. */
  method TakeCookies(oldOrder: seq<string>, oldValues: map<string, string>, header: string)
    returns (order: seq<string>, values: map<string, string>)
    ensures Jar(order, values) == PutAll(Jar(oldOrder, oldValues), Collect(Cookies(header), SetPairOf))
  {
    var combined := Cookies(header);
    order, values := oldOrder, oldValues;
    for i := 0 to |combined|
      invariant Jar(order, values) == PutAll(Jar(oldOrder, oldValues), Collect(combined[..i], SetPairOf))
    {
      PutNext(Jar(oldOrder, oldValues), combined, i, SetPairOf);
      var pair := SetPairOf(combined[i]);
      if pair.Some? {
        if pair.value.0 !in values {
          order := order + [pair.value.0];
        }
        values := values[pair.value.0 := pair.value.1];
      }
    }
    assert combined[..|combined|] == combined;
  }
}
