/**
  Models the framing of keyed lookup digests (app/hash_utils.py): the compact
  JSON array of tag and parts, its UTF-8 bytes, and the labelled callers. The
  JSON grammar is that of RFC 8259, sections 5 (arrays) and 7 (strings).
*/
module LookupFraming {
  import opened Basics

  type CodePoint = c: int | 0 <= c < 0x11_0000
  type Byte = b: int | 0 <= b < 256
  type Text = seq<CodePoint>

  const QUOTE: CodePoint := 34
  const COMMA: CodePoint := 44
  const OPEN: CodePoint := 91
  const BACKSLASH: CodePoint := 92
  const CLOSE: CodePoint := 93

  // ------------------------------------------------------------------ printing

  function HexDigit(d: int): CodePoint
    requires 0 <= d < 16
  {
    if d < 10 then 48 + d else 87 + d
  }

  /** What json.dumps writes for one character when it leaves non-ASCII text alone. */
  function Escaped(c: CodePoint): Text {
    if c == QUOTE || c == BACKSLASH then [BACKSLASH, c]
    else if c == 8 then [BACKSLASH, 98]
    else if c == 9 then [BACKSLASH, 116]
    else if c == 10 then [BACKSLASH, 110]
    else if c == 12 then [BACKSLASH, 102]
    else if c == 13 then [BACKSLASH, 114]
    else if c < 32 then [BACKSLASH, 117, 48, 48, HexDigit(c / 16), HexDigit(c % 16)]
    else [c]
  }

  function EscapedText(t: Text): Text {
    if t == [] then [] else Escaped(t[0]) + EscapedText(t[1..])
  }

  /** Strings separated by commas, each in quotes. */
  function Elements(items: seq<Text>): Text
    requires items != []
  {
    var first := [QUOTE] + EscapedText(items[0]) + [QUOTE];
    if |items| == 1 then first else first + [COMMA] + Elements(items[1..])
  }

  function Array(items: seq<Text>): Text
    requires items != []
  {
    [OPEN] + Elements(items) + [CLOSE]
  }

  predicate IsSurrogate(c: CodePoint) { 0xD800 <= c < 0xE000 }

  function Utf8(c: CodePoint): seq<Byte> {
    if c < 0x80 then [c]
    else if c < 0x800 then [0xC0 + c / 64, 0x80 + c % 64]
    else if c < 0x1_0000 then [0xE0 + c / 4096, 0x80 + c / 64 % 64, 0x80 + c % 64]
    else [0xF0 + c / 262144, 0x80 + c / 4096 % 64, 0x80 + c / 64 % 64, 0x80 + c % 64]
  }

  function Utf8Text(t: Text): seq<Byte> {
    if t == [] then [] else Utf8(t[0]) + Utf8Text(t[1..])
  }

  /** encode("utf-8") raises on a lone surrogate. */
  function Encoded(t: Text): Option<seq<Byte>> {
    if exists i | 0 <= i < |t| :: IsSurrogate(t[i]) then None else Some(Utf8Text(t))
  }

  function TextOf(s: string): Text {
    seq(|s|, i requires 0 <= i < |s| => s[i] as int)
  }

  function Version(): Text { TextOf("cth.identity.lookup.v1") }

  function Payload(tag: Text, parts: seq<Text>): Option<seq<Byte>> {
    Encoded(Array([Version(), tag] + parts))
  }

  /** The characters of RFC 8259, section 7, that are escaped, and how: the five short forms and \u with two zeros. */
  lemma EscapedExactly(c: CodePoint)
    ensures c >= 32 && c != '"' as int && c != '\\' as int ==> Escaped(c) == [c]
    ensures Escaped('"' as int) == TextOf("\\\"") && Escaped('\\' as int) == TextOf("\\\\")
    ensures Escaped(8) == TextOf("\\b") && Escaped(9) == TextOf("\\t") && Escaped(10) == TextOf("\\n")
    ensures Escaped(12) == TextOf("\\f") && Escaped(13) == TextOf("\\r")
    ensures c < 32 && c !in {8, 9, 10, 12, 13} ==>
              Escaped(c) == TextOf("\\u00") + [c / 16 + '0' as int, if c % 16 < 10 then c % 16 + '0' as int
                                                                else c % 16 - 10 + 'a' as int]
  {
  }

  /** Arrays of RFC 8259, section 5, without white space. */
  lemma ArrayExactly(items: seq<Text>)
    requires items != []
    ensures Array(items) == [91] + Elements(items) + [93]
    ensures |items| == 1 ==> Elements(items) == [34] + EscapedText(items[0]) + [34]
    ensures |items| > 1 ==> Elements(items) == [34] + EscapedText(items[0]) + [34] + [44] + Elements(items[1..])
  {
  }

  /** UTF-8 as in RFC 3629, section 3, from the sixes of bits that the bytes carry. */
  lemma Utf8Exactly(a: int, b: int, c: int, d: int)
    requires 0 <= a && 0 <= b < 64 && 0 <= c < 64 && 0 <= d < 64
    ensures a < 128 ==> Utf8(a) == [a]
    ensures 2 <= a < 32 ==> Utf8(a * 64 + b) == [192 + a, 128 + b]
    ensures a < 16 && (a > 0 || b >= 32) ==> Utf8(a * 4096 + b * 64 + c) == [224 + a, 128 + b, 128 + c]
    ensures (0 < a < 4 || (a == 0 && b >= 16) || (a == 4 && b < 16)) ==>
              Utf8(a * 262144 + b * 4096 + c * 64 + d) == [240 + a, 128 + b, 128 + c, 128 + d]
  {
    Sixes(a, b);
    if a < 16 && (a > 0 || b >= 32) {
      ThreeSixes(a, b, c);
    }
    if 0 < a < 4 || (a == 0 && b >= 16) || (a == 4 && b < 16) {
      FourSixes(a, b, c, d);
    }
  }

  lemma Sixes(high: int, low: int)
    requires 0 <= low < 64
    ensures (high * 64 + low) / 64 == high && (high * 64 + low) % 64 == low
  {
  }

  lemma ThreeSixes(a: int, b: int, c: int)
    requires 0 <= b < 64 && 0 <= c < 64
    ensures var n := a * 4096 + b * 64 + c; n / 4096 == a && n / 64 % 64 == b && n % 64 == c
  {
    Sixes(a, b);
    Sixes(a * 64 + b, c);
  }

  lemma FourSixes(a: int, b: int, c: int, d: int)
    requires 0 <= b < 64 && 0 <= c < 64 && 0 <= d < 64
    ensures var n := a * 262144 + b * 4096 + c * 64 + d;
            n / 262144 == a && n / 4096 % 64 == b && n / 64 % 64 == c && n % 64 == d
  {
    ThreeSixes(a, b, c);
    Sixes(a * 4096 + b * 64 + c, d);
  }

  // ------------------------------------------------------------------ decoding

  function Utf8Length(lead: Byte): nat {
    if lead < 0x80 then 1 else if lead < 0xE0 then 2 else if lead < 0xF0 then 3 else 4
  }

  /** The six bits that a continuation byte carries. */
  function Low(b: int): int { b - 0x80 }

  /** Reads one code point; None on bytes that no code point is written as. */
  function DecodeOne(bytes: seq<Byte>): Option<CodePoint>
    requires bytes != [] && |bytes| >= Utf8Length(bytes[0])
  {
    var n, lead: int := Utf8Length(bytes[0]), bytes[0];
    var value :=
      if n == 1 then lead
      else if n == 2 then (lead - 0xC0) * 64 + Low(bytes[1])
      else if n == 3 then (lead - 0xE0) * 4096 + Low(bytes[1]) * 64 + Low(bytes[2])
      else (lead - 0xF0) * 262144 + Low(bytes[1]) * 4096 + Low(bytes[2]) * 64 + Low(bytes[3]);
    if 0 <= value < 0x11_0000 then Some(value) else None
  }

  function DecodeUtf8(bytes: seq<Byte>): Option<Text>
    decreases |bytes|
  {
    if bytes == [] then Some([])
    else if |bytes| < Utf8Length(bytes[0]) then None
    else
      var first, rest := DecodeOne(bytes), DecodeUtf8(bytes[Utf8Length(bytes[0])..]);
      if first.None? || rest.None? then None else Some([first.value] + rest.value)
  }

  function HexValue(c: CodePoint): int {
    if 48 <= c < 58 then c - 48 else if 97 <= c < 103 then c - 87 else 0
  }

  /** The character after a backslash, and how many characters it took. */
  function Unescaped(input: Text): Option<(CodePoint, nat)> {
    if input == [] then None
    else if input[0] == QUOTE || input[0] == BACKSLASH then Some((input[0], 1))
    else if input[0] == 98 then Some((8, 1))
    else if input[0] == 116 then Some((9, 1))
    else if input[0] == 110 then Some((10, 1))
    else if input[0] == 102 then Some((12, 1))
    else if input[0] == 114 then Some((13, 1))
    else if input[0] == 117 && |input| >= 5 then Some((HexValue(input[3]) * 16 + HexValue(input[4]), 5))
    else None
  }

  /** Text up to the closing quote, and what follows it. */
  function ParseText(input: Text): Option<(Text, Text)>
    decreases |input|
  {
    if input == [] then None
    else if input[0] == QUOTE then Some(([], input[1..]))
    else if input[0] == BACKSLASH then
      var u := Unescaped(input[1..]);
      if u.None? || u.value.1 > |input| - 1 then None
      else
        var rest := ParseText(input[1 + u.value.1..]);
        if rest.None? then None else Some(([u.value.0] + rest.value.0, rest.value.1))
    else
      var rest := ParseText(input[1..]);
      if rest.None? then None else Some(([input[0]] + rest.value.0, rest.value.1))
  }

  function ParseElements(input: Text): Option<seq<Text>>
    decreases |input|
  {
    if input == [] || input[0] != QUOTE then None
    else
      var first := ParseText(input[1..]);
      if first.None? then None
      else
        var after := first.value.1;
        if after == [CLOSE] then Some([first.value.0])
        else if after != [] && after[0] == COMMA && |after| < |input| then
          var rest := ParseElements(after[1..]);
          if rest.None? then None else Some([first.value.0] + rest.value)
        else None
  }

  function ParseArray(input: Text): Option<seq<Text>> {
    if input == [] || input[0] != OPEN then None else ParseElements(input[1..])
  }

  function DecodePayload(bytes: seq<Byte>): Option<seq<Text>> {
    var t := DecodeUtf8(bytes);
    if t.None? then None else ParseArray(t.value)
  }

  // ---------------------------------------------------------------- round trips

  lemma SixBitDigits(c: CodePoint)
    ensures c == c / 64 * 64 + c % 64
    ensures c == c / 4096 * 4096 + c / 64 % 64 * 64 + c % 64
    ensures c == c / 262144 * 262144 + c / 4096 % 64 * 4096 + c / 64 % 64 * 64 + c % 64
  {
    assert c / 64 / 64 == c / 4096 && c / 4096 / 64 == c / 262144;
  }

  lemma Utf8OneRoundTrip(c: CodePoint, rest: seq<Byte>)
    ensures var bytes := Utf8(c) + rest;
            Utf8Length(bytes[0]) == |Utf8(c)| && DecodeOne(bytes) == Some(c) && bytes[|Utf8(c)|..] == rest
  {
    var bytes := Utf8(c) + rest;
    SixBitDigits(c);
    assert bytes[0] == Utf8(c)[0] && Utf8Length(bytes[0]) == |Utf8(c)|;
    assert forall i | 0 <= i < |Utf8(c)| :: bytes[i] == Utf8(c)[i];
  }

  lemma DecodeStep(c: CodePoint, rest: seq<Byte>)
    ensures DecodeUtf8(rest).Some? ==> DecodeUtf8(Utf8(c) + rest) == Some([c] + DecodeUtf8(rest).value)
  {
    Utf8OneRoundTrip(c, rest);
  }

  lemma {:induction false} Utf8RoundTrip(t: Text)
    ensures DecodeUtf8(Utf8Text(t)) == Some(t)
  {
    if t != [] {
      var first, rest := t[0], t[1..];
      Utf8RoundTrip(rest);
      DecodeStep(first, Utf8Text(rest));
      assert t == [first] + rest;
    }
  }

  lemma EscapeStart(c: CodePoint)
    ensures Escaped(c)[0] != QUOTE
    ensures Escaped(c)[0] == BACKSLASH ==> |Escaped(c)| > 1
    ensures Escaped(c)[0] != BACKSLASH ==> Escaped(c) == [c]
  {
  }

  lemma UnescapeEscaped(c: CodePoint, rest: Text)
    requires Escaped(c)[0] == BACKSLASH
    ensures |Escaped(c)| > 1 && Unescaped(Escaped(c)[1..] + rest) == Some((c, |Escaped(c)| - 1))
  {
    if c < 32 {
      assert HexValue(HexDigit(c / 16)) == c / 16 && HexValue(HexDigit(c % 16)) == c % 16;
    }
  }

  /** One printed character is read back and the rest of the input is left as it was. */
  lemma ParseOne(c: CodePoint, tail: Text)
    ensures ParseText(Escaped(c) + tail)
         == (var rest := ParseText(tail); if rest.None? then None else Some(([c] + rest.value.0, rest.value.1)))
  {
    var e, input := Escaped(c), Escaped(c) + tail;
    EscapeStart(c);
    assert input[0] == e[0];
    if e[0] == BACKSLASH {
      UnescapeEscaped(c, tail);
      assert input[1..] == e[1..] + tail;
      assert input[1 + (|e| - 1)..] == tail;
    } else {
      assert input[1..] == tail;
    }
  }

  lemma ParseEnd(rest: Text)
    ensures ParseText([QUOTE] + rest) == Some(([], rest))
  {
    assert ([QUOTE] + rest)[1..] == rest;
  }

  lemma EscapedSplits(t: Text, tail: Text)
    requires t != []
    ensures EscapedText(t) + tail == Escaped(t[0]) + (EscapedText(t[1..]) + tail)
  {
  }

  lemma EscapedEmpty(tail: Text)
    ensures EscapedText([]) + tail == tail
  {
  }

  lemma {:induction false} TextRoundTrip(t: Text, rest: Text)
    ensures ParseText(EscapedText(t) + ([QUOTE] + rest)) == Some((t, rest))
  {
    var close := [QUOTE] + rest;
    if t == [] {
      EscapedEmpty(close);
      ParseEnd(rest);
    } else {
      TextRoundTrip(t[1..], rest);
      EscapedSplits(t, close);
      ParseOne(t[0], EscapedText(t[1..]) + close);
      assert t == [t[0]] + t[1..];
    }
  }

  function Quoted(item: Text, rest: Text): Text { [QUOTE] + EscapedText(item) + [QUOTE] + rest }

  /** What is read as one element up to its closing quote. */
  predicate ReadsFirst(input: Text, item: Text, rest: Text) {
    input != [] && input[0] == QUOTE && ParseText(input[1..]) == Some((item, rest))
  }

  predicate Reads(input: Text, items: seq<Text>) { ParseElements(input) == Some(items) }

  lemma ParseFirstElement(item: Text, rest: Text)
    ensures ReadsFirst(Quoted(item, rest), item, rest)
  {
    assert Quoted(item, rest)[1..] == EscapedText(item) + ([QUOTE] + rest);
    TextRoundTrip(item, rest);
  }

  lemma ReadsOneMore(input: Text, item: Text, tail: Text, items: seq<Text>)
    requires ReadsFirst(input, item, [COMMA] + tail) && |tail| < |input| - 1 && Reads(tail, items)
    ensures Reads(input, [item] + items)
  {
    assert ([COMMA] + tail)[1..] == tail;
  }

  lemma ReadsLast(input: Text, item: Text)
    requires ReadsFirst(input, item, [CLOSE])
    ensures Reads(input, [item])
  {
  }

  lemma OneElement(items: seq<Text>)
    requires |items| == 1
    ensures Elements(items) + [CLOSE] == Quoted(items[0], [CLOSE])
  {
  }

  lemma MoreElements(items: seq<Text>)
    requires |items| > 1
    ensures Elements(items) + [CLOSE] == Quoted(items[0], [COMMA] + (Elements(items[1..]) + [CLOSE]))
  {
  }

  lemma {:induction false} ElementsRoundTrip(items: seq<Text>)
    requires items != []
    ensures Reads(Elements(items) + [CLOSE], items)
  {
    if |items| == 1 {
      OneElement(items);
      ParseFirstElement(items[0], [CLOSE]);
      ReadsLast(Elements(items) + [CLOSE], items[0]);
      assert items == [items[0]];
    } else {
      var tail := Elements(items[1..]) + [CLOSE];
      MoreElements(items);
      ParseFirstElement(items[0], [COMMA] + tail);
      ElementsRoundTrip(items[1..]);
      ReadsOneMore(Elements(items) + [CLOSE], items[0], tail, items[1..]);
      assert items == [items[0]] + items[1..];
    }
  }

  lemma ArrayRoundTrip(items: seq<Text>)
    requires items != []
    ensures ParseArray(Array(items)) == Some(items)
  {
    assert Array(items)[1..] == Elements(items) + [CLOSE];
    ElementsRoundTrip(items);
  }

  /** The decoder recovers version, tag and every part from the payload bytes. */
  lemma PayloadRoundTrip(tag: Text, parts: seq<Text>)
    ensures Payload(tag, parts).Some? ==>
              DecodePayload(Payload(tag, parts).value) == Some([TextOf("cth.identity.lookup.v1"), tag] + parts)
  {
    var items := [Version(), tag] + parts;
    Utf8RoundTrip(Array(items));
    ArrayRoundTrip(items);
  }

  /** Two different tag and part lists of any length never share payload bytes. */
  lemma PayloadInjective(tag1: Text, parts1: seq<Text>, tag2: Text, parts2: seq<Text>)
    ensures Payload(tag1, parts1).Some? && Payload(tag1, parts1) == Payload(tag2, parts2) ==>
              tag1 == tag2 && parts1 == parts2
  {
    PayloadRoundTrip(tag1, parts1);
    PayloadRoundTrip(tag2, parts2);
    var items1, items2 := [Version(), tag1] + parts1, [Version(), tag2] + parts2;
    assert items1[1] == tag1 && items2[1] == tag2;
    assert items1[2..] == parts1 && items2[2..] == parts2;
  }

  // -------------------------------------------------------------------- callers

  /** What a caller asks a digest of; None is a value that is not a string. */
  datatype Request =
    | UsernameVerifier(username: Option<Text>, salt: seq<Byte>)
    | UsernameLookup(username: Option<Text>)
    | TotpReplay(username: Option<Text>, code: Text)
    | ClaimName(value: Option<Text>, classId: Option<Text>, field: Text)
    | RosterFingerprint(classId: Option<Text>, firstName: Option<Text>, lastName: Option<Text>, dedupe: Text)

  /** Unicode normalisation of usernames, names and dedupe codes, which is not looked into. */
  datatype Normalization = Normalization(username: Text -> Text, name: Text -> Text, code: Text -> Text)

  datatype LookupError = NotText | NoClass | UnknownField | Unencodable

  datatype Frame = Frame(tag: Text, parts: seq<Text>)

  predicate Blank(t: Text) { forall i | 0 <= i < |t| :: IsSpace(t[i]) }

  predicate NamesClass(classId: Option<Text>) { classId.Some? && !Blank(classId.value) }

  function Hex(bytes: seq<Byte>): Text {
    if bytes == [] then [] else [HexDigit(bytes[0] / 16), HexDigit(bytes[0] % 16)] + Hex(bytes[1..])
  }

  /** The label and parts each caller passes on, with the checks it makes before. */
  function Framed(n: Normalization, r: Request): Result<Frame, LookupError> {
    match r
    case UsernameVerifier(u, salt) =>
      if u.None? then Failure(NotText)
      else Success(Frame(TextOf("username-verifier"), [Hex(salt), n.username(u.value)]))
    case UsernameLookup(u) =>
      if u.None? then Failure(NotText) else Success(Frame(TextOf("username"), [n.username(u.value)]))
    case TotpReplay(u, code) =>
      if u.None? then Failure(NotText) else Success(Frame(TextOf("login-totp-replay"), [n.username(u.value), code]))
    case ClaimName(v, classId, field) =>
      if !NamesClass(classId) then Failure(NoClass)
      else if field != TextOf("first") && field != TextOf("last") then Failure(UnknownField)
      else if v.None? then Failure(NotText)
      else Success(Frame(TextOf("claim-") + field + TextOf("-name"), [classId.value, n.name(v.value)]))
    case RosterFingerprint(classId, first, last, dedupe) =>
      if !NamesClass(classId) then Failure(NoClass)
      else if first.None? || last.None? then Failure(NotText)
      else Success(Frame(TextOf("roster-fingerprint"),
                         [classId.value, n.name(first.value), n.name(last.value), n.code(dedupe)]))
  }

  /** The label of each caller, and the parts in their order. */
  lemma FramedByUsername(n: Normalization, u: Text, code: Text, salt: seq<Byte>)
    ensures Framed(n, UsernameVerifier(Some(u), salt))
         == Success(Frame(TextOf("username-verifier"), [Hex(salt), n.username(u)]))
    ensures Framed(n, UsernameLookup(Some(u))) == Success(Frame(TextOf("username"), [n.username(u)]))
    ensures Framed(n, TotpReplay(Some(u), code)) == Success(Frame(TextOf("login-totp-replay"), [n.username(u), code]))
  {
  }

  lemma FramedByClass(n: Normalization, u: Text, v: Text, classId: Text, code: Text, field: Text)
    requires !Blank(classId)
    ensures field == TextOf("first") || field == TextOf("last") ==>
              Framed(n, ClaimName(Some(u), Some(classId), field))
              == Success(Frame(TextOf("claim-") + field + TextOf("-name"), [classId, n.name(u)]))
    ensures Framed(n, RosterFingerprint(Some(classId), Some(u), Some(v), code))
         == Success(Frame(TextOf("roster-fingerprint"), [classId, n.name(u), n.name(v), n.code(code)]))
  {
  }

  /** The bytes that the keyed digest of a request is taken of. */
  function DigestInput(n: Normalization, r: Request): Result<seq<Byte>, LookupError> {
    var f := Framed(n, r);
    if f.Failure? then Failure(f.error)
    else
      var p := Payload(f.value.tag, f.value.parts);
      if p.None? then Failure(Unencodable) else Success(p.value)
  }

  /** Two requests about one identity: same purpose, and the same fields once normalised. */
  predicate SameIdentity(n: Normalization, r1: Request, r2: Request)
    requires Framed(n, r1).Success? && Framed(n, r2).Success?
  {
    match r1
    case UsernameVerifier(u, salt) =>
      r2.UsernameVerifier? && salt == r2.salt && n.username(u.value) == n.username(r2.username.value)
    case UsernameLookup(u) =>
      r2.UsernameLookup? && n.username(u.value) == n.username(r2.username.value)
    case TotpReplay(u, code) =>
      r2.TotpReplay? && code == r2.code && n.username(u.value) == n.username(r2.username.value)
    case ClaimName(v, classId, field) =>
      r2.ClaimName? && classId == r2.classId && field == r2.field && n.name(v.value) == n.name(r2.value.value)
    case RosterFingerprint(classId, first, last, dedupe) =>
      r2.RosterFingerprint? && classId == r2.classId && n.code(dedupe) == n.code(r2.dedupe)
      && n.name(first.value) == n.name(r2.firstName.value) && n.name(last.value) == n.name(r2.lastName.value)
  }

  lemma {:induction false} HexInjective(a: seq<Byte>, b: seq<Byte>)
    requires Hex(a) == Hex(b)
    ensures a == b
  {
    if a != [] && b != [] {
      var x, y := Hex(a), Hex(b);
      assert x[0] == y[0] && x[1] == y[1] && x[2..] == Hex(a[1..]) && y[2..] == Hex(b[1..]);
      assert a[0] / 16 == b[0] / 16 && a[0] % 16 == b[0] % 16;
      HexInjective(a[1..], b[1..]);
      assert a == [a[0]] + a[1..] && b == [b[0]] + b[1..];
    }
  }

  /** The label alone tells which caller framed the payload. */
  function Purpose(r: Request): (k: int) {
    match r
    case UsernameVerifier(_, _) => 0
    case UsernameLookup(_) => 1
    case TotpReplay(_, _) => 2
    case ClaimName(_, _, field) => if field == TextOf("first") then 3 else 4
    case RosterFingerprint(_, _, _, _) => 5
  }

  lemma LabelsTellCallersApart(n: Normalization, r1: Request, r2: Request)
    requires Framed(n, r1).Success? && Framed(n, r2).Success?
    requires Framed(n, r1).value.tag == Framed(n, r2).value.tag
    ensures Purpose(r1) == Purpose(r2)
  {
    var t1, t2 := Framed(n, r1).value.tag, Framed(n, r2).value.tag;
    assert t1[0] == t2[0];
    assert |TextOf("first")| == 5 && |TextOf("last")| == 4;
  }

  /**
    The digests of two accepted requests are taken of the same bytes exactly when
    the requests are about the same identity, whatever characters the fields hold.
  */
  lemma SamePayloadExactly(n: Normalization, r1: Request, r2: Request)
    ensures DigestInput(n, r1).Success? && DigestInput(n, r2).Success? ==>
              (DigestInput(n, r1) == DigestInput(n, r2) <==> SameIdentity(n, r1, r2))
  {
    if DigestInput(n, r1).Success? && DigestInput(n, r2).Success? {
      var f1, f2 := Framed(n, r1).value, Framed(n, r2).value;
      SameFrameExactly(n, r1, r2);
      PayloadInjective(f1.tag, f1.parts, f2.tag, f2.parts);
    }
  }

  lemma SameFrameExactly(n: Normalization, r1: Request, r2: Request)
    requires Framed(n, r1).Success? && Framed(n, r2).Success?
    ensures Framed(n, r1) == Framed(n, r2) <==> SameIdentity(n, r1, r2)
  {
    var p1, p2 := Framed(n, r1).value.parts, Framed(n, r2).value.parts;
    if Framed(n, r1) == Framed(n, r2) {
      LabelsTellCallersApart(n, r1, r2);
      assert forall i | 0 <= i < |p1| :: p1[i] == p2[i];
      if r1.UsernameVerifier? {
        assert p1[0] == p2[0];
        HexInjective(r1.salt, r2.salt);
      }
    }
  }
}
