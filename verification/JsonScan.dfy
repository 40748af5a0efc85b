/** The reader's tokens and how it decodes numbers and strings, as functions of the document. */
module JsonScan {
  import opened Common
  import opened JsonValue

  predicate IsSpace(c: char) { c == ' ' || c == '\t' || c == '\r' || c == '\n' }

  predicate IsDigit(c: char) { '0' <= c <= '9' }

  predicate IsNumberChar(c: char) { IsDigit(c) || c == '.' || c == 'e' || c == 'E' || c == '+' || c == '-' }

  /** The character at `p`; the terminating NUL at the end. */
  function Peek(doc: string, p: nat): char { if p < |doc| then doc[p] else '\0' }

  function SkipSpaces(doc: string, p: nat): (r: nat)
    requires p <= |doc|
    ensures p <= r <= |doc|
    ensures r < |doc| ==> !IsSpace(doc[r])
    decreases |doc| - p
  {
    if p < |doc| && IsSpace(doc[p]) then SkipSpaces(doc, p + 1) else p
  }

  function NumberEnd(doc: string, p: nat): (r: nat)
    requires p <= |doc|
    ensures p <= r <= |doc|
    decreases |doc| - p
  {
    if p < |doc| && IsNumberChar(doc[p]) then NumberEnd(doc, p + 1) else p
  }

  /** From inside a string: whether a closing quote is found, and where reading stops. */
  function StringEnd(doc: string, p: nat): (r: (bool, nat))
    requires p <= |doc|
    ensures p <= r.1 <= |doc|
    ensures r.0 ==> p < r.1 && doc[r.1 - 1] == '"'
    decreases |doc| - p
  {
    if p == |doc| then (false, p)
    else if doc[p] == '\\' then StringEnd(doc, if p + 2 <= |doc| then p + 2 else p + 1)
    else if doc[p] == '"' then (true, p + 1)
    else StringEnd(doc, p + 1)
  }

  function CCommentEnd(doc: string, p: nat): (r: (bool, nat))
    requires p <= |doc|
    ensures p <= r.1 <= |doc|
    decreases |doc| - p
  {
    if p == |doc| then (false, p)
    else if doc[p] == '*' && Peek(doc, p + 1) == '/' then (true, p + 2)
    else CCommentEnd(doc, p + 1)
  }

  function CppCommentEnd(doc: string, p: nat): (r: nat)
    requires p <= |doc|
    ensures p <= r <= |doc|
    decreases |doc| - p
  {
    if p == |doc| then p
    else if doc[p] == '\r' || doc[p] == '\n' then p + 1
    else CppCommentEnd(doc, p + 1)
  }

  /** From just after a '/': whether a whole comment follows, and where reading stops. */
  function CommentEnd(doc: string, p: nat): (r: (bool, nat))
    requires p <= |doc|
    ensures p <= r.1 <= |doc|
  {
    if p < |doc| && doc[p] == '*' then CCommentEnd(doc, p + 1)
    else if p < |doc| && doc[p] == '/' then (true, CppCommentEnd(doc, p + 1))
    else (false, if p < |doc| then p + 1 else p)
  }

  predicate WordAt(doc: string, p: nat, w: string)
  {
    p + |w| <= |doc| && doc[p..p + |w|] == w
  }

  datatype Kind =
    | EndOfStream | ObjectBegin | ObjectEnd | ArrayBegin | ArrayEnd | QuotedString | Number
    | TrueWord | FalseWord | NullWord | ArraySeparator | MemberSeparator | Comment | Error

  datatype Token = Token(kind: Kind, start: nat, end: nat)

  function WordToken(doc: string, p: nat, kind: Kind, rest: string): Token
    requires p < |doc|
  {
    if WordAt(doc, p + 1, rest) then Token(kind, p, p + 1 + |rest|) else Token(Error, p, p + 1)
  }

  /** The token that starts at `p`, no space being there. */
  function TokenAt(doc: string, p: nat): (t: Token)
    requires p <= |doc|
    ensures t.start == p <= t.end <= |doc|
    ensures t.end == p ==> t.kind == EndOfStream && p == |doc|
    ensures t.kind == QuotedString ==> p + 2 <= t.end
  {
    if p == |doc| then Token(EndOfStream, p, p)
    else
      var c := doc[p];
      if c == '{' then Token(ObjectBegin, p, p + 1)
      else if c == '}' then Token(ObjectEnd, p, p + 1)
      else if c == '[' then Token(ArrayBegin, p, p + 1)
      else if c == ']' then Token(ArrayEnd, p, p + 1)
      else if c == '"' then
        var (ok, end) := StringEnd(doc, p + 1);
        Token(if ok then QuotedString else Error, p, end)
      else if c == '/' then
        var (ok, end) := CommentEnd(doc, p + 1);
        Token(if ok then Comment else Error, p, end)
      else if IsDigit(c) || c == '-' then Token(Number, p, NumberEnd(doc, p + 1))
      else if c == 't' then WordToken(doc, p, TrueWord, "rue")
      else if c == 'f' then WordToken(doc, p, FalseWord, "alse")
      else if c == 'n' then WordToken(doc, p, NullWord, "ull")
      else if c == ',' then Token(ArraySeparator, p, p + 1)
      else if c == ':' then Token(MemberSeparator, p, p + 1)
      else if c == '\0' then Token(EndOfStream, p, p + 1)
      else Token(Error, p, p + 1)
  }

  /** The next token: spaces are skipped, and every token but the end takes something from the input. */
  function NextToken(doc: string, p: nat): (t: Token)
    requires p <= |doc|
    ensures p <= t.start <= t.end <= |doc|
    ensures t.end == p ==> t.kind == EndOfStream && p == |doc|
    ensures t.kind == QuotedString ==> t.start + 2 <= t.end
  {
    TokenAt(doc, SkipSpaces(doc, p))
  }

  function NextNonComment(doc: string, p: nat): (t: Token)
    requires p <= |doc|
    ensures p <= t.start <= t.end <= |doc|
    ensures t.end == p ==> t.kind == EndOfStream && p == |doc|
    ensures t.kind == QuotedString ==> t.start + 2 <= t.end
    ensures t.kind != Comment
    decreases |doc| - p
  {
    var t := NextToken(doc, p);
    if t.kind == Comment then NextNonComment(doc, t.end) else t
  }

  /** Where skipping stops that looks for a kind of token: behind the first of it, or at the end. */
  function SkippedTo(doc: string, p: nat, kind: Kind): (r: nat)
    requires p <= |doc|
    ensures p <= r <= |doc|
    decreases |doc| - p
  {
    var t := NextToken(doc, p);
    if t.kind == kind || t.kind == EndOfStream then t.end else SkippedTo(doc, t.end, kind)
  }

  // ---- Numbers ------------------------------------------------------------

  /** What a number token denotes; Bad for a text that is no number. */
  datatype Number = Integer(n: int) | Double | Bad

  /** Whether the token is left to the floating point scanner from the start. */
  predicate LooksDouble(text: string)
  {
    exists i :: 0 <= i < |text| && (text[i] in ".eE+" || (text[i] == '-' && i > 0))
  }

  /** The largest magnitude an integer token may have. */
  function MaxMagnitude(negative: bool): nat { if negative then TWO_63 else TWO_64 - 1 }

  /** The digit loop, from digit `i` on, with `value` accumulated in 64 bits. */
  function DigitLoop(text: string, i: nat, value: nat, negative: bool): Number
    requires i <= |text|
    decreases |text| - i
  {
    if i == |text| then Integer(if negative then Negated(value) else value)
    else if !IsDigit(text[i]) then Bad
    else
      var digit := text[i] as int - '0' as int;
      var max := MaxMagnitude(negative);
      if value >= max / 10 && (i + 1 != |text| || digit > max % 10) then Double
      else DigitLoop(text, i + 1, (value * 10 + digit) % TWO_64, negative)
  }

  /** Reading 64 bits as signed, and negating in two's complement. */
  function Negated(value: nat): int
  {
    var signed := if value < TWO_63 then value as int else value - TWO_64;
    if signed == MIN_INT64 then MIN_INT64 else -signed
  }

  function DecodeNumber(text: string): Number
  {
    if LooksDouble(text) then Double
    else
      var negative := text != [] && text[0] == '-';
      DigitLoop(text, if negative then 1 else 0, 0, negative)
  }

  // ---- Strings ------------------------------------------------------------

  function HexValue(c: char): Option<nat>
  {
    if '0' <= c <= '9' then Some(c as int - '0' as int)
    else if 'a' <= c <= 'f' then Some(c as int - 'a' as int + 10)
    else if 'A' <= c <= 'F' then Some(c as int - 'A' as int + 10)
    else None
  }

  /** The value of the hexadecimal digits from `i` up to `end`, after `acc`. */
  function HexLoop(text: string, i: nat, end: nat, acc: nat): Option<nat>
    requires i <= end <= |text|
    decreases end - i
  {
    if i == end then Some(acc)
    else match HexValue(text[i])
      case None => None
      case Some(d) => HexLoop(text, i + 1, end, acc * 16 + d)
  }

  function Hex4(text: string, i: nat): Option<nat>
    requires i <= |text|
  {
    if |text| - i < 4 then None else HexLoop(text, i, i + 4, 0)
  }

  /** The code point of a surrogate pair: ten bits from each half. */
  function Combined(high: nat, low: nat): nat { 0x10000 + high % 0x400 * 0x400 + low % 0x400 }

  /** The code point escaped at `i`, after `\u`, a high surrogate taking the escape after it; and where it ends. */
  function CodePoint(text: string, i: nat): (r: Option<(nat, nat)>)
    requires i <= |text|
    ensures r.Some? ==> i + 4 <= r.value.1 <= |text|
  {
    match Hex4(text, i)
    case None => None
    case Some(u) =>
      if !(0xD800 <= u <= 0xDBFF) then Some((u, i + 4))
      else if |text| - (i + 4) < 6 then None
      else if text[i + 4] != '\\' || text[i + 5] != 'u' then None
      else match Hex4(text, i + 6)
        case None => None
        case Some(low) => Some((Combined(u, low), i + 10))
  }

  function Byte(n: nat): char
    requires n < 256
  {
    n as char
  }

  function Utf8(cp: nat): string
  {
    if cp <= 0x7f then [Byte(cp)]
    else if cp <= 0x7ff then [Byte(0xC0 + cp / 0x40 % 0x20), Byte(0x80 + cp % 0x40)]
    else if cp <= 0xffff then [Byte(0xE0 + cp / 0x1000 % 0x10), Byte(0x80 + cp / 0x40 % 0x40), Byte(0x80 + cp % 0x40)]
    else if cp <= 0x10ffff then
      [Byte(0xF0 + cp / 0x40000 % 8), Byte(0x80 + cp / 0x1000 % 0x40), Byte(0x80 + cp / 0x40 % 0x40),
        Byte(0x80 + cp % 0x40)]
    else []
  }

  function SimpleEscape(e: char): Option<char>
  {
    match e
    case '"' => Some('"') case '/' => Some('/') case '\\' => Some('\\')
    case 'b' => Some(8 as char) case 'f' => Some(12 as char) case 'n' => Some('\n')
    case 'r' => Some('\r') case 't' => Some('\t')
    case _ => None
  }

  /** The inside of a string token from `i` on, escapes resolved. */
  function Unescape(text: string, i: nat): Option<string>
    requires i <= |text|
    decreases |text| - i
  {
    if i == |text| || text[i] == '"' then Some("")
    else if text[i] != '\\' then Prepend([text[i]], Unescape(text, i + 1))
    else if i + 1 == |text| then None
    else if text[i + 1] == 'u' then
      match CodePoint(text, i + 2)
      case None => None
      case Some((cp, end)) => Prepend(Utf8(cp), Unescape(text, end))
    else match SimpleEscape(text[i + 1])
      case None => None
      case Some(c) => Prepend([c], Unescape(text, i + 2))
  }

  function Prepend(s: string, rest: Option<string>): Option<string>
  {
    if rest.Some? then Some(s + rest.value) else None
  }
}
