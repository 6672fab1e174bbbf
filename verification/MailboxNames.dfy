/** IMAP mailbox names on the wire (icloud_gateway/imap_otp.py): modified UTF-7 of section
    5.1.3 of RFC 3501 over UTF-16 of section 2 of RFC 2781, and the astring around it.
    The decoder is written from the standards alone and is strict: it accepts canonical
    encodings only. */
module MailboxNames {
  import opened Options

  // ---------------------------------------------------------------- UTF-16

  type Unit = n: int | 0 <= n < 0x10000
  type Byte = n: int | 0 <= n < 0x100
  type Sextet = n: int | 0 <= n < 64

  function Units(c: char): (us: seq<Unit>)
  {
    var n := c as int;
    if n < 0x10000 then [n] else [0xD800 + (n - 0x10000) / 0x400, 0xDC00 + (n - 0x10000) % 0x400]
  }

  function Utf16(cs: string): (us: seq<Unit>)
  {
    if cs == "" then [] else Units(cs[0]) + Utf16(cs[1..])
  }

  predicate High(u: Unit) { 0xD800 <= u < 0xDC00 }
  predicate Low(u: Unit) { 0xDC00 <= u < 0xE000 }

  function Paired(high: Unit, low: Unit): char
    requires High(high) && Low(low)
  {
    var h: int, l: int := high - 0xD800, low - 0xDC00;
    (0x10000 + h * 0x400 + l) as char
  }

  /** Section 2.2 of RFC 2781; a surrogate without its partner is an error. */
  function FromUtf16(us: seq<Unit>): Option<string>
  {
    if us == [] then Some("")
    else if High(us[0]) then
      if |us| < 2 || !Low(us[1]) then None else
      match FromUtf16(us[2..])
      case None => None
      case Some(rest) => Some([Paired(us[0], us[1])] + rest)
    else if Low(us[0]) then None
    else
      match FromUtf16(us[1..])
      case None => None
      case Some(rest) => Some([us[0] as char] + rest)
  }

  lemma {:induction false} Utf16RoundTrip(cs: string)
    ensures FromUtf16(Utf16(cs)) == Some(cs)
  {
    if cs != "" {
      Utf16RoundTrip(cs[1..]);
      OneCharacter(cs[0], Utf16(cs[1..]));
      assert cs == [cs[0]] + cs[1..];
    }
  }

  lemma OneCharacter(c: char, rest: seq<Unit>)
    requires FromUtf16(rest).Some?
    ensures FromUtf16(Units(c) + rest) == Some([c] + FromUtf16(rest).value)
  {
    var us := Units(c) + rest;
    if |Units(c)| == 2 {
      assert us[2..] == rest && us[0] == Units(c)[0] && us[1] == Units(c)[1];
      assert Paired(us[0], us[1]) == c;
    } else {
      assert us[1..] == rest && us[0] == c as int;
    }
  }

  lemma {:induction false} Utf16Unique(us: seq<Unit>)
    requires FromUtf16(us).Some?
    ensures Utf16(FromUtf16(us).value) == us
  {
    if us != [] {
      var cs := FromUtf16(us).value;
      if High(us[0]) {
        Utf16Unique(us[2..]);
        assert cs[1..] == FromUtf16(us[2..]).value;
        assert us == us[..2] + us[2..];
      } else {
        Utf16Unique(us[1..]);
        assert cs[1..] == FromUtf16(us[1..]).value;
      }
    }
  }

  // ---------------------------------------------------------------- bytes

  function BigEndian(us: seq<Unit>): (bs: seq<Byte>)
  {
    if us == [] then [] else [us[0] / 256, us[0] % 256] + BigEndian(us[1..])
  }

  function Joined(high: Byte, low: Byte): Unit {
    var h: int, l: int := high, low;
    h * 256 + l
  }

  function FromBigEndian(bs: seq<Byte>): (us: Option<seq<Unit>>)
  {
    if bs == [] then Some([])
    else if |bs| == 1 then None
    else
      match FromBigEndian(bs[2..])
      case None => None
      case Some(rest) => Some([Joined(bs[0], bs[1])] + rest)
  }

  lemma {:induction false} BigEndianRoundTrip(us: seq<Unit>)
    ensures FromBigEndian(BigEndian(us)) == Some(us)
  {
    if us != [] {
      BigEndianRoundTrip(us[1..]);
      assert Joined(us[0] / 256, us[0] % 256) == us[0] && us == [us[0]] + us[1..];
      assert BigEndian(us)[2..] == BigEndian(us[1..]);
    }
  }

  lemma {:induction false} BigEndianUnique(bs: seq<Byte>)
    requires FromBigEndian(bs).Some?
    ensures BigEndian(FromBigEndian(bs).value) == bs
  {
    if bs != [] {
      var us := FromBigEndian(bs).value;
      BigEndianUnique(bs[2..]);
      assert us[1..] == FromBigEndian(bs[2..]).value;
      assert bs == [bs[0], bs[1]] + bs[2..];
    }
  }

  // ---------------------------------------------------------------- base64

  /** Table 1 of RFC 4648. */
  function Digit(x: Sextet): char {
    if x < 26 then ('A' as int + x) as char
    else if x < 52 then ('a' as int + x - 26) as char
    else if x < 62 then ('0' as int + x - 52) as char
    else if x == 62 then '+' else '/'
  }

  function Plain(xs: seq<Sextet>): string {
    seq(|xs|, i requires 0 <= i < |xs| => Digit(xs[i]))
  }

  /** The four sextets of a 24-bit group. */
  function Quad(a: Byte, b: Byte, c: Byte): seq<Sextet> {
    [a / 4, a % 4 * 16 + b / 16, b % 16 * 4 + c / 64, c % 64]
  }

  /** Base64 with padding (section 4 of RFC 4648): a short last group is filled with zeros. */
  function Base64(bs: seq<Byte>): string {
    if bs == [] then ""
    else if |bs| == 1 then Plain(Quad(bs[0], 0, 0)[..2]) + "=="
    else if |bs| == 2 then Plain(Quad(bs[0], bs[1], 0)[..3]) + "="
    else Plain(Quad(bs[0], bs[1], bs[2])) + Base64(bs[3..])
  }

  function RStrip(s: string, c: char): string {
    if s == "" || s[|s| - 1] != c then s else RStrip(s[..|s| - 1], c)
  }

  function ReplaceChar(s: string, c: char, text: string): string {
    if s == "" then "" else (if s[0] == c then text else [s[0]]) + ReplaceChar(s[1..], c, text)
  }

  /** The token between "&" and "-" for a run of characters. */
  function Token(run: string): string {
    ReplaceChar(RStrip(Base64(BigEndian(Utf16(run))), '='), '/', ",")
  }

  // ---- the reader's side, in sextets

  function ModifiedDigit(x: Sextet): char
  {
    if x == 63 then ',' else Digit(x)
  }

  function DigitValue(c: char): Option<Sextet> {
    if 'A' <= c <= 'Z' then Some(c as int - 'A' as int)
    else if 'a' <= c <= 'z' then Some(26 + c as int - 'a' as int)
    else if '0' <= c <= '9' then Some(52 + c as int - '0' as int)
    else if c == '+' then Some(62)
    else if c == ',' then Some(63)
    else None
  }

  lemma DigitsMatch(x: Sextet)
    ensures DigitValue(ModifiedDigit(x)) == Some(x)
    ensures Digit(x) != '=' && (Digit(x) == '/' <==> x == 63)
    ensures ModifiedDigit(x) == if Digit(x) == '/' then ',' else Digit(x)
    ensures ModifiedDigit(x) != '-' && ' ' <= ModifiedDigit(x) <= '~' && ModifiedDigit(x) != '"'
            && ModifiedDigit(x) != '\\'
  {}

  function Sextets(s: string): (xs: Option<seq<Sextet>>)
    ensures xs.Some? ==> |xs.value| == |s|
  {
    if s == "" then Some([]) else
    match (DigitValue(s[0]), Sextets(s[1..]))
    case (Some(x), Some(xs)) => Some([x] + xs)
    case _ => None
  }

  function First(a: Sextet, b: Sextet): Byte { var x: int, y: int := a, b; x * 4 + y / 16 }
  function Second(b: Sextet, c: Sextet): Byte { var x: int, y: int := b, c; x % 16 * 16 + y / 4 }
  function Third(c: Sextet, d: Sextet): Byte { var x: int, y: int := c, d; x % 4 * 64 + y }

  /** Bits beyond the last whole byte must be zero, and a single digit carries no byte. */
  function BytesOf(xs: seq<Sextet>): (bs: Option<seq<Byte>>)
  {
    if xs == [] then Some([])
    else if |xs| == 1 then None
    else if |xs| == 2 then
      if xs[1] % 16 != 0 then None else Some([First(xs[0], xs[1])])
    else if |xs| == 3 then
      if xs[2] % 4 != 0 then None else Some([First(xs[0], xs[1]), Second(xs[1], xs[2])])
    else
      match BytesOf(xs[4..])
      case None => None
      case Some(rest) =>
        Some([First(xs[0], xs[1]), Second(xs[1], xs[2]), Third(xs[2], xs[3])] + rest)
  }

  predicate Printable(c: char) { ' ' <= c <= '~' }

  /** A shifted token: nothing that could represent itself, and at least one character. */
  function Untoken(s: string): Option<string> {
    match Sextets(s)
    case None => None
    case Some(xs) =>
      match BytesOf(xs)
      case None => None
      case Some(bs) =>
        match FromBigEndian(bs)
        case None => None
        case Some(us) =>
          match FromUtf16(us)
          case None => None
          case Some(run) => if run != "" && NonePrintable(run) then Some(run) else None
  }

  predicate NonePrintable(run: string) { forall i | 0 <= i < |run| :: !Printable(run[i]) }

  // ---------------------------------------------------------------- token round trip

  /** The sextets of a byte string, without padding. */
  function Packed(bs: seq<Byte>): seq<Sextet> {
    if bs == [] then []
    else if |bs| == 1 then Quad(bs[0], 0, 0)[..2]
    else if |bs| == 2 then Quad(bs[0], bs[1], 0)[..3]
    else Quad(bs[0], bs[1], bs[2]) + Packed(bs[3..])
  }

  lemma Repack(a: Byte, b: Byte, c: Byte)
    ensures First(a / 4, a % 4 * 16 + b / 16) == a
    ensures Second(a % 4 * 16 + b / 16, b % 16 * 4 + c / 64) == b
    ensures Third(b % 16 * 4 + c / 64, c % 64) == c
  {}

  lemma {:induction false} PackedRoundTrip(bs: seq<Byte>)
    ensures BytesOf(Packed(bs)) == Some(bs)
  {
    if |bs| == 1 {
      assert bs == [bs[0]];
    } else if |bs| == 2 {
      assert bs == [bs[0], bs[1]];
    } else if |bs| >= 3 {
      PackedRoundTrip(bs[3..]);
      Repack(bs[0], bs[1], bs[2]);
      assert Packed(bs)[4..] == Packed(bs[3..]);
      assert bs == [bs[0], bs[1], bs[2]] + bs[3..];
    }
  }

  lemma Unpack(a: Sextet, b: Sextet, c: Sextet, d: Sextet)
    ensures First(a, b) / 4 == a
    ensures First(a, b) % 4 * 16 + Second(b, c) / 16 == b
    ensures Second(b, c) % 16 * 4 + Third(c, d) / 64 == c
    ensures Third(c, d) % 64 == d
    ensures b % 16 == 0 ==> First(a, b) % 4 * 16 == b
    ensures c % 4 == 0 ==> Second(b, c) % 16 * 4 == c
  {}

  lemma {:induction false} PackedUnique(xs: seq<Sextet>)
    requires BytesOf(xs).Some?
    ensures Packed(BytesOf(xs).value) == xs
  {
    if |xs| == 2 {
      Unpack(xs[0], xs[1], 0, 0);
    } else if |xs| == 3 {
      Unpack(xs[0], xs[1], xs[2], 0);
    } else if |xs| >= 4 {
      var bs := BytesOf(xs).value;
      PackedUnique(xs[4..]);
      Unpack(xs[0], xs[1], xs[2], xs[3]);
      assert bs[3..] == BytesOf(xs[4..]).value;
      assert xs == [xs[0], xs[1], xs[2], xs[3]] + xs[4..];
    }
  }

  function Spell(xs: seq<Sextet>): string {
    seq(|xs|, i requires 0 <= i < |xs| => ModifiedDigit(xs[i]))
  }

  function Pad(n: nat): string { if n % 3 == 1 then "==" else if n % 3 == 2 then "=" else "" }

  lemma {:induction false} Base64IsPlainAndPad(bs: seq<Byte>)
    ensures Base64(bs) == Plain(Packed(bs)) + Pad(|bs|)
  {
    if |bs| >= 3 {
      Base64IsPlainAndPad(bs[3..]);
      PlainAppend(Quad(bs[0], bs[1], bs[2]), Packed(bs[3..]));
    }
  }

  lemma PlainAppend(xs: seq<Sextet>, ys: seq<Sextet>)
    ensures Plain(xs + ys) == Plain(xs) + Plain(ys)
  {}

  lemma PlainHasNoPad(xs: seq<Sextet>)
    ensures forall i | 0 <= i < |Plain(xs)| :: Plain(xs)[i] != '='
  {
    forall i | 0 <= i < |Plain(xs)| ensures Plain(xs)[i] != '=' { DigitsMatch(xs[i]); }
  }

  lemma StripPad(s: string, n: nat)
    requires forall i | 0 <= i < |s| :: s[i] != '='
    ensures RStrip(s + Pad(n), '=') == s
  {
    assert s + "" == s;
    assert RStrip(s, '=') == s;
    assert (s + "=")[..|s|] == s && (s + "=")[|s|] == '=';
    assert RStrip(s + "=", '=') == s;
    assert (s + "==")[..|s| + 1] == s + "=" && (s + "==")[|s| + 1] == '=';
  }

  lemma {:induction false} ReplaceSpells(xs: seq<Sextet>)
    ensures ReplaceChar(Plain(xs), '/', ",") == Spell(xs)
  {
    if xs != [] {
      DigitsMatch(xs[0]);
      ReplaceSpells(xs[1..]);
      assert Plain(xs)[1..] == Plain(xs[1..]);
      assert Spell(xs) == [ModifiedDigit(xs[0])] + Spell(xs[1..]);
    }
  }

  /** Padding stripped and "/" replaced, the library's base64 is the modified one. */
  lemma TokenSpells(run: string)
    ensures Token(run) == Spell(Packed(BigEndian(Utf16(run))))
  {
    var bs := BigEndian(Utf16(run));
    Base64IsPlainAndPad(bs);
    PlainHasNoPad(Packed(bs));
    StripPad(Plain(Packed(bs)), |bs|);
    ReplaceSpells(Packed(bs));
  }

  lemma {:induction false} SpellRoundTrip(xs: seq<Sextet>)
    ensures Sextets(Spell(xs)) == Some(xs)
    ensures forall i | 0 <= i < |Spell(xs)| ::
              Spell(xs)[i] != '-' && Printable(Spell(xs)[i]) && Spell(xs)[i] != '"' && Spell(xs)[i] != '\\'
  {
    if xs != [] {
      DigitsMatch(xs[0]);
      SpellRoundTrip(xs[1..]);
      assert Spell(xs)[1..] == Spell(xs[1..]) && Spell(xs)[0] == ModifiedDigit(xs[0]);
      assert xs == [xs[0]] + xs[1..];
    }
  }

  lemma {:induction false} SpellUnique(s: string)
    requires Sextets(s).Some?
    ensures Spell(Sextets(s).value) == s
  {
    if s != "" {
      SpellUnique(s[1..]);
      assert Sextets(s).value[1..] == Sextets(s[1..]).value;
      assert Spell(Sextets(s).value)[1..] == Spell(Sextets(s[1..]).value);
    }
  }

  lemma TokenRoundTrip(run: string)
    requires run != "" && NonePrintable(run)
    ensures Untoken(Token(run)) == Some(run)
    ensures Token(run) != "" && forall i | 0 <= i < |Token(run)| :: Token(run)[i] != '-' && Printable(Token(run)[i])
  {
    TokenSpells(run);
    Utf16RoundTrip(run);
    BigEndianRoundTrip(Utf16(run));
    PackedRoundTrip(BigEndian(Utf16(run)));
    SpellRoundTrip(Packed(BigEndian(Utf16(run))));
  }

  /** Only the encoder's own token reads as `run`. */
  lemma TokenUnique(s: string)
    requires Untoken(s).Some?
    ensures Token(Untoken(s).value) == s
  {
    SpellUnique(s);
    var xs := Sextets(s).value;
    PackedUnique(xs);
    BigEndianUnique(BytesOf(xs).value);
    Utf16Unique(FromBigEndian(BytesOf(xs).value).value);
    TokenSpells(Untoken(s).value);
  }

  // ---------------------------------------------------------------- whole names

  function Flush(run: string): string { if run == "" then "" else "&" + Token(run) + "-" }

  function Literal(c: char): string { if c == '&' then "&-" else [c] }

  /** What _encode_imap_mailbox appends for `value` when `run` is pending. */
  function EncodeFrom(value: string, run: string): string {
    if value == "" then Flush(run)
    else if Printable(value[0]) then Flush(run) + (Literal(value[0]) + EncodeFrom(value[1..], ""))
    else EncodeFrom(value[1..], run + [value[0]])
  }

  function Encode(value: string): string { EncodeFrom(value, "") }

  lemma Assoc(a: string, b: string, c: string, d: string)
    ensures a + (b + (c + d)) == a + b + c + d
  {}

  /** The loop of _encode_imap_mailbox over its two growing lists. */
  method EncodeImapMailbox(value: string) returns (encoded: string)
    ensures encoded == Encode(value)
  {
    encoded := "";
    var unicodeRun := "";
    for i := 0 to |value|
      invariant encoded + EncodeFrom(value[i..], unicodeRun) == Encode(value)
    {
      var character := value[i];
      assert value[i..][1..] == value[i + 1..];
      if ' ' <= character <= '~' {
        Assoc(encoded, Flush(unicodeRun), Literal(character), EncodeFrom(value[i + 1..], ""));
        encoded := encoded + Flush(unicodeRun) + Literal(character);
        unicodeRun := "";
      } else {
        unicodeRun := unicodeRun + [character];
      }
    }
    assert value[|value|..] == "";
    encoded := encoded + Flush(unicodeRun);
  }

  function Dash(s: string): (k: nat)
    ensures k <= |s|
    ensures forall i | 0 <= i < k :: s[i] != '-'
    ensures k < |s| ==> s[k] == '-'
  {
    if s == "" || s[0] == '-' then 0 else 1 + Dash(s[1..])
  }

  predicate StartsShift(s: string) { |s| >= 2 && s[0] == '&' && s[1] != '-' }

  function Joining(run: Option<string>, rest: Option<string>): Option<string> {
    if run.Some? && rest.Some? then Some(run.value + rest.value) else None
  }

  /** Section 5.1.3 of RFC 3501, strictly: "&-" is an ampersand, other shifts end with "-",
      stand for at least one character that could not represent itself, and are not
      adjacent to another shift. */
  function Decode(s: string): Option<string>
    decreases |s|
  {
    if s == "" then Some("")
    else if s[0] != '&' then
      if Printable(s[0]) then Joining(Some([s[0]]), Decode(s[1..])) else None
    else
      var k := Dash(s[1..]);
      if k == |s| - 1 then None
      else if k == 0 then Joining(Some("&"), Decode(s[2..]))
      else if StartsShift(s[k + 2..]) then None
      else Joining(Untoken(s[1..k + 1]), Decode(s[k + 2..]))
  }

  lemma {:induction false} DashAt(t: string, rest: string)
    requires forall i | 0 <= i < |t| :: t[i] != '-'
    ensures Dash(t + ("-" + rest)) == |t|
  {
    var s := t + ("-" + rest);
    if t != "" {
      DashAt(t[1..], rest);
      assert s[0] == t[0] && s[1..] == t[1..] + ("-" + rest);
    }
  }

  lemma DecodeLiteral(c: char, y: string)
    requires Printable(c)
    ensures Decode(Literal(c) + y) == Joining(Some([c]), Decode(y))
    ensures !StartsShift(Literal(c) + y)
  {
    var s := Literal(c) + y;
    if c == '&' {
      assert s[1..] == "-" + y && s[2..] == y;
    } else {
      assert s[1..] == y;
    }
  }

  function Shift(t: string, y: string): string { "&" + (t + ("-" + y)) }

  lemma DecodeShift(t: string, y: string)
    requires t != "" && (forall i | 0 <= i < |t| :: t[i] != '-') && !StartsShift(y)
    ensures Decode(Shift(t, y)) == Joining(Untoken(t), Decode(y))
  {
    var s := Shift(t, y);
    DashAt(t, y);
    assert s[1..] == t + ("-" + y);
    assert s[1..|t| + 1] == t;
    assert s[|t| + 2..] == y;
  }

  lemma FlushShifts(run: string, y: string)
    requires run != ""
    ensures Flush(run) + y == Shift(Token(run), y)
  {}

  lemma FlushDecodes(run: string, y: string)
    requires NonePrintable(run) && !StartsShift(y) && Decode(y).Some?
    ensures Decode(Flush(run) + y) == Some(run + Decode(y).value)
  {
    if run == "" {
      assert Flush(run) + y == y && run + Decode(y).value == Decode(y).value;
    } else {
      TokenRoundTrip(run);
      FlushShifts(run, y);
      DecodeShift(Token(run), y);
    }
  }

  lemma {:induction false} EncodeFromDecodes(value: string, run: string)
    requires NonePrintable(run)
    ensures Decode(EncodeFrom(value, run)) == Some(run + value)
    decreases |value|
  {
    if value == "" {
      FlushDecodes(run, "");
      assert Flush(run) + "" == Flush(run) && run + "" == run;
    } else if Printable(value[0]) {
      EncodeFromDecodes(value[1..], "");
      DecodeLiteral(value[0], EncodeFrom(value[1..], ""));
      FlushDecodes(run, Literal(value[0]) + EncodeFrom(value[1..], ""));
      assert "" + value[1..] == value[1..] && value == [value[0]] + value[1..];
    } else {
      EncodeFromDecodes(value[1..], run + [value[0]]);
      assert run + [value[0]] + value[1..] == run + value;
    }
  }

  /** Reading what was written gives the folder name back, for every name. */
  lemma DecodeEncode(value: string)
    ensures Decode(Encode(value)) == Some(value)
  {
    EncodeFromDecodes(value, "");
    assert "" + value == value;
  }

  lemma {:induction false} EncodeRunFirst(run: string, rest: string, pending: string)
    requires NonePrintable(run)
    ensures EncodeFrom(run + rest, pending) == EncodeFrom(rest, pending + run)
    decreases |run|
  {
    if run == "" {
      assert run + rest == rest && pending + run == pending;
    } else {
      var first, others := run[0], run[1..];
      assert (run + rest)[0] == first && (run + rest)[1..] == others + rest;
      assert !Printable(first);
      EncodeRunFirst(others, rest, pending + [first]);
      assert pending + [first] + others == pending + run;
    }
  }

  lemma EncodeFlushes(value: string, run: string)
    requires value == "" || Printable(value[0])
    ensures EncodeFrom(value, run) == Flush(run) + EncodeFrom(value, "")
  {
    if value == "" {
      assert Flush(run) + "" == Flush(run);
    } else {
      var rest := Literal(value[0]) + EncodeFrom(value[1..], "");
      assert "" + rest == rest;
    }
  }

  lemma EncodeLiteral(c: char, v: string)
    requires Printable(c)
    ensures Encode([c] + v) == Literal(c) + Encode(v)
  {
    var value := [c] + v;
    assert value[1..] == v;
    assert "" + (Literal(c) + Encode(v)) == Literal(c) + Encode(v);
  }

  lemma SplitShift(s: string)
    requires s != "" && s[0] == '&' && 0 < Dash(s[1..]) < |s| - 1
    ensures var k := Dash(s[1..]); s == Shift(s[1..k + 1], s[k + 2..])
  {
    var k := Dash(s[1..]);
    assert s[1..][k] == '-';
  }

  /** Conversely, a reader that accepts a name saw exactly what the gateway would write: the
      two are inverse bijections between names and canonical encodings. */
  lemma {:induction false} EncodeDecode(s: string)
    requires Decode(s).Some?
    ensures Encode(Decode(s).value) == s
    ensures !StartsShift(s) ==> Decode(s).value == "" || Printable(Decode(s).value[0])
    decreases |s|
  {
    if s != "" {
      if s[0] != '&' {
        EncodeDecode(s[1..]);
        EncodeLiteral(s[0], Decode(s[1..]).value);
        assert s == [s[0]] + s[1..];
      } else {
        var k := Dash(s[1..]);
        if k == 0 {
          EncodeDecode(s[2..]);
          EncodeLiteral('&', Decode(s[2..]).value);
          assert s[1..][0] == '-' && s == "&-" + s[2..];
        } else {
          var t, y := s[1..k + 1], s[k + 2..];
          SplitShift(s);
          EncodeDecode(y);
          ShiftEncodes(t, y);
        }
      }
    }
  }

  lemma ShiftEncodes(t: string, y: string)
    requires Untoken(t).Some? && Decode(y).Some? && Encode(Decode(y).value) == y
    requires Decode(y).value == "" || Printable(Decode(y).value[0])
    ensures Encode(Untoken(t).value + Decode(y).value) == Shift(t, y)
  {
    var run, rest := Untoken(t).value, Decode(y).value;
    TokenUnique(t);
    EncodeRunFirst(run, rest, "");
    assert "" + run == run;
    EncodeFlushes(rest, run);
    FlushShifts(run, y);
  }

  // ---------------------------------------------------------------- the command argument

  predicate Forbidden(c: char) { c == '\r' || c == '\n' || c == '\0' }

  /** The class [A-Za-z0-9._/-] of names sent without quotes. */
  predicate Bare(c: char) {
    'A' <= c <= 'Z' || 'a' <= c <= 'z' || '0' <= c <= '9' || c == '.' || c == '_' || c == '/' || c == '-'
  }

  function Escape(s: string): string {
    ReplaceChar(ReplaceChar(s, '\\', "\\\\"), '"', "\\\"")
  }

  /** _mailbox_argument; None is the ValueError. */
  function MailboxArgument(value: string): Option<string> {
    if value == "" || exists c | c in value :: Forbidden(c) then None else Some(Astring(Encode(value)))
  }

  /** Bare if possible, else quoted. */
  function Astring(encoded: string): string {
    if encoded != "" && forall c | c in encoded :: Bare(c) then encoded else "\"" + Escape(encoded) + "\""
  }

  /** ASTRING-CHAR of section 9 of RFC 3501. */
  predicate AstringChar(c: char) {
    '!' <= c <= '~' && c != '(' && c != ')' && c != '{' && c != '%' && c != '*' && c != '"' && c != '\\'
  }

  /** The rest of a quoted string, up to a closing quote that ends the input. */
  function ReadQuoted(s: string): Option<string>
    decreases |s|
  {
    if s == "" then None
    else if s[0] == '"' then if |s| == 1 then Some("") else None
    else if s[0] == '\\' then
      if |s| >= 2 && (s[1] == '\\' || s[1] == '"') then Joining(Some([s[1]]), ReadQuoted(s[2..])) else None
    else if Forbidden(s[0]) || s[0] as int > 127 then None
    else Joining(Some([s[0]]), ReadQuoted(s[1..]))
  }

  /** An astring argument (sections 4.3 and 9 of RFC 3501; literals are not sent). */
  function ReadAstring(s: string): Option<string> {
    if s == "" then None
    else if s[0] == '"' then ReadQuoted(s[1..])
    else if forall c | c in s :: AstringChar(c) then Some(s) else None
  }

  lemma {:induction false} ReplaceAppends(a: string, b: string, c: char, text: string)
    ensures ReplaceChar(a + b, c, text) == ReplaceChar(a, c, text) + ReplaceChar(b, c, text)
  {
    if a == "" {
      assert a + b == b;
    } else {
      ReplaceAppends(a[1..], b, c, text);
      assert (a + b)[0] == a[0] && (a + b)[1..] == a[1..] + b;
      var first := if a[0] == c then text else [a[0]];
      var more, rest := ReplaceChar(a[1..], c, text), ReplaceChar(b, c, text);
      assert first + (more + rest) == first + more + rest;
    }
  }

  function EscapedChar(c: char): string { if c == '\\' || c == '"' then ['\\', c] else [c] }

  lemma EscapeStep(s: string)
    requires s != ""
    ensures Escape(s) == EscapedChar(s[0]) + Escape(s[1..])
  {
    var first := if s[0] == '\\' then "\\\\" else [s[0]];
    ReplaceAppends(first, ReplaceChar(s[1..], '\\', "\\\\"), '"', "\\\"");
    EscapeOne(s[0]);
  }

  lemma EscapeOne(c: char)
    ensures ReplaceChar(if c == '\\' then "\\\\" else [c], '"', "\\\"") == EscapedChar(c)
  {
    assert [c][1..] == "";
    if c == '\\' {
      assert "\\\\"[1..] == "\\" && "\\"[1..] == "";
      assert ReplaceChar("\\", '"', "\\\"") == "\\";
    }
  }

  lemma {:induction false} QuotedRoundTrip(s: string)
    requires forall i | 0 <= i < |s| :: Printable(s[i])
    ensures ReadQuoted(Escape(s) + "\"") == Some(s)
    ensures forall i | 0 <= i < |Escape(s)| :: Printable(Escape(s)[i])
  {
    if s == "" {
      assert Escape(s) == "";
    } else {
      EscapeStep(s);
      QuotedRoundTrip(s[1..]);
      var rest := Escape(s[1..]) + "\"";
      assert Escape(s) + "\"" == EscapedChar(s[0]) + rest;
      QuotedStep(s[0], rest);
      assert s == [s[0]] + s[1..];
    }
  }

  lemma QuotedStep(c: char, rest: string)
    requires Printable(c)
    ensures ReadQuoted(EscapedChar(c) + rest) == Joining(Some([c]), ReadQuoted(rest))
  {
    var s := EscapedChar(c) + rest;
    assert s[|EscapedChar(c)|..] == rest;
  }

  lemma {:induction false} EncodePrintable(value: string, run: string)
    requires NonePrintable(run)
    ensures forall i | 0 <= i < |EncodeFrom(value, run)| :: Printable(EncodeFrom(value, run)[i])
    decreases |value|
  {
    if run != "" {
      TokenRoundTrip(run);
    }
    assert forall i | 0 <= i < |Flush(run)| :: Printable(Flush(run)[i]);
    if value != "" {
      if Printable(value[0]) {
        EncodePrintable(value[1..], "");
      } else {
        EncodePrintable(value[1..], run + [value[0]]);
      }
    }
  }

  predicate Unquoted(c: int) { 65 <= c <= 90 || 97 <= c <= 122 || 46 <= c <= 57 || c == 45 || c == 95 }

  /** What goes on the wire is printable ASCII, reads as one astring, and that astring decodes
      to the folder name; only empty names and names with CR, LF or NUL are refused.  It is quoted
      exactly if it has a character that is no letter, digit, dot, underscore, slash or hyphen. */
  lemma MailboxArgumentReadsBack(value: string)
    ensures MailboxArgument(value).None? <==> value == "" || '\r' in value || '\n' in value || '\0' in value
    ensures var a := MailboxArgument(value);
            a.Some? ==>
              && ReadAstring(a.value).Some?
              && Decode(ReadAstring(a.value).value) == Some(value)
              && (forall i | 0 <= i < |a.value| :: Printable(a.value[i]))
              && (a.value[0] != '"' <==> forall c | c in Encode(value) :: Unquoted(c as int))
  {
    var encoded := Encode(value);
    DecodeEncode(value);
    EncodePrintable(value, "");
    if MailboxArgument(value).Some? {
      assert encoded != "" by {
        assert Decode("") == Some("");
      }
      AstringReadsBack(encoded);
    }
  }

  /** A printable text, bare or quoted, reads back as itself. */
  lemma AstringReadsBack(encoded: string)
    requires encoded != "" && forall i | 0 <= i < |encoded| :: Printable(encoded[i])
    ensures ReadAstring(Astring(encoded)) == Some(encoded)
    ensures forall i | 0 <= i < |Astring(encoded)| :: Printable(Astring(encoded)[i])
    ensures Astring(encoded)[0] != '"' <==> forall c | c in encoded :: Unquoted(c as int)
  {
    assert forall c :: Bare(c) <==> Unquoted(c as int);
    if forall c | c in encoded :: Bare(c) {
      assert encoded[0] in encoded;
    } else {
      QuotedRoundTrip(encoded);
      var quoted := "\"" + Escape(encoded) + "\"";
      assert quoted[1..] == Escape(encoded) + "\"";
    }
  }

  /** Two different folders never share an argument. */
  lemma MailboxArgumentInjective(a: string, b: string)
    requires MailboxArgument(a).Some? && MailboxArgument(a) == MailboxArgument(b)
    ensures a == b
  {
    MailboxArgumentReadsBack(a);
    MailboxArgumentReadsBack(b);
  }
}
