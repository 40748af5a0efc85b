/** JSON documents as RFC 8259 spells them, with any white space between tokens and any escapes in
    strings, and the theorem that the reader reads each as its meaning. */
module JsonDoc {
  import opened Common
  import opened JsonValue
  import opened JsonScan
  import opened JsonNumber
  import opened JsonParse
  import opened Placing

  /** One piece of a string: a plain character, a two-character escape, or `\u` escapes. */
  datatype Piece = Plain(c: char) | Escape(e: char) | Unicode(hex: string) | Pair(high: string, low: string)

  /** A value spelled out; `ws` is the white space before it, `after` the space before what follows. */
  datatype Doc =
    | DNull(ws: string)
    | DBool(ws: string, b: bool)
    | DInt(ws: string, text: string)
    | DReal(ws: string, text: string)
    | DStr(ws: string, pieces: seq<Piece>)
    | DArr(ws: string, items: seq<Item>, close: string)
    | DObj(ws: string, fields: seq<Field>, close: string)

  datatype Item = Item(doc: Doc, after: string)

  datatype Field = Field(ws: string, name: seq<Piece>, colon: string, doc: Doc, after: string)

  // ---- Spelling -----------------------------------------------------------

  predicate AllSpace(s: string)
  {
    forall i :: 0 <= i < |s| ==> s[i] == ' ' || s[i] == '\t' || s[i] == '\n' || s[i] == '\r'
  }

  /** A hexadecimal digit, in either case. */
  function HexDigitOf(c: char): Option<nat>
  {
    match c
    case '0' => Some(0) case '1' => Some(1) case '2' => Some(2) case '3' => Some(3) case '4' => Some(4)
    case '5' => Some(5) case '6' => Some(6) case '7' => Some(7) case '8' => Some(8) case '9' => Some(9)
    case 'A' => Some(10) case 'B' => Some(11) case 'C' => Some(12)
    case 'D' => Some(13) case 'E' => Some(14) case 'F' => Some(15)
    case 'a' => Some(10) case 'b' => Some(11) case 'c' => Some(12)
    case 'd' => Some(13) case 'e' => Some(14) case 'f' => Some(15)
    case _ => None
  }

  function Hex(h: string): (r: Option<nat>)
    ensures r.Some? ==> |h| == 4
  {
    if |h| == 4 && forall i :: 0 <= i < 4 ==> HexDigitOf(h[i]).Some? then
      Some(HexDigitOf(h[0]).value * 0x1000 + HexDigitOf(h[1]).value * 0x100 + HexDigitOf(h[2]).value * 0x10
           + HexDigitOf(h[3]).value)
    else None
  }

  /** The two-character escapes of section 7, and what they stand for. */
  const NAMED: map<char, char> := map[
    '"' := '"', '\\' := '\\', '/' := '/', 'b' := 8 as char, 'f' := 12 as char, 'n' := '\n', 'r' := '\r', 't' := '\t']

  /** The code point of a surrogate pair. Where RFC 8259 leaves open what a second half outside
      DC00 to DFFF means, the reader takes its last ten bits. */
  function PairOf(high: nat, low: nat): nat
    requires 0xD800 <= high <= 0xDBFF
  {
    0x10000 + (high - 0xD800) * 0x400 + if 0xDC00 <= low <= 0xDFFF then low - 0xDC00 else low % 0x400
  }

  predicate GoodPiece(p: Piece)
  {
    match p
    case Plain(c) => c != '"' && c != '\\'
    case Escape(e) => e in NAMED
    case Unicode(h) => Hex(h).Some? && !(0xD800 <= Hex(h).value <= 0xDBFF)
    case Pair(h, l) => Hex(h).Some? && Hex(l).Some? && 0xD800 <= Hex(h).value <= 0xDBFF
  }

  predicate GoodPieces(ps: seq<Piece>)
  {
    forall i :: 0 <= i < |ps| ==> GoodPiece(ps[i])
  }

  function SpellPiece(p: Piece): string
  {
    match p
    case Plain(c) => [c]
    case Escape(e) => ['\\', e]
    case Unicode(h) => ['\\', 'u'] + h
    case Pair(h, l) => ['\\', 'u'] + h + (['\\', 'u'] + l)
  }

  function Spell(ps: seq<Piece>): string
  {
    if ps == [] then "" else SpellPiece(ps[0]) + Spell(ps[1..])
  }

  function PieceText(p: Piece): string
    requires GoodPiece(p)
  {
    match p
    case Plain(c) => [c]
    case Escape(e) => [NAMED[e]]
    case Unicode(h) => Utf8(Hex(h).value)
    case Pair(h, l) => Utf8(PairOf(Hex(h).value, Hex(l).value))
  }

  predicate Between(c: char, low: nat, high: nat) { low <= c as nat <= high }

  /** UTF-8 read back, by the table in section 4 of RFC 3629 (but that surrogates are let through): lead
      byte, continuation bytes, and no form longer than needed. */
  function Utf8Decoded(s: string): Option<nat>
  {
    if |s| == 1 && Between(s[0], 0x00, 0x7F) then Some(s[0] as nat)
    else if |s| == 2 && Between(s[0], 0xC2, 0xDF) && Between(s[1], 0x80, 0xBF) then
      Some((s[0] as nat - 0xC0) * 0x40 + (s[1] as nat - 0x80))
    else if |s| == 3 && Between(s[0], 0xE0, 0xEF) && Between(s[1], if s[0] as int == 0xE0 then 0xA0 else 0x80, 0xBF) &&
      Between(s[2], 0x80, 0xBF) then
      Some((s[0] as nat - 0xE0) * 0x1000 + (s[1] as nat - 0x80) * 0x40 + (s[2] as nat - 0x80))
    else if |s| == 4 && Between(s[0], 0xF0, 0xF4) && Between(s[1], if s[0] as int == 0xF0 then 0x90 else 0x80,
      if s[0] as int == 0xF4 then 0x8F else 0xBF) && Between(s[2], 0x80, 0xBF) && Between(s[3], 0x80, 0xBF) then
      Some((s[0] as nat - 0xF0) * 0x40000 + (s[1] as nat - 0x80) * 0x1000 + (s[2] as nat - 0x80) * 0x40
           + (s[3] as nat - 0x80))
    else None
  }

  /** Six bits at a time. */
  lemma Sixes(cp: nat)
    ensures cp == cp / 0x40 * 0x40 + cp % 0x40
    ensures cp / 0x40 == cp / 0x1000 * 0x40 + cp / 0x40 % 0x40
    ensures cp / 0x1000 == cp / 0x40000 * 0x40 + cp / 0x1000 % 0x40
  {
  }

  lemma Utf8Reads(cp: nat)
    requires cp <= 0x10FFFF
    ensures Utf8Decoded(Utf8(cp)) == Some(cp)
  {
    hide Utf8Decoded;
    if cp > 0xFFFF {
      FourWritten(cp);
      FourRead(cp / 0x40000, cp / 0x1000 % 0x40, cp / 0x40 % 0x40, cp % 0x40);
    } else if cp > 0x7FF {
      ThreeWritten(cp);
      ThreeRead(cp / 0x1000, cp / 0x40 % 0x40, cp % 0x40);
    } else {
      ShortRead(cp);
    }
  }

  lemma ShortRead(cp: nat)
    requires cp <= 0x7FF
    ensures Utf8Decoded(Utf8(cp)) == Some(cp)
  {
    if cp > 0x7F {
      var c, d := cp / 0x40, cp % 0x40;
      assert cp == c * 0x40 + d && c < 0x20;
      assert Utf8(cp) == [Byte(0xC0 + c), Byte(0x80 + d)];
    }
  }

  lemma ThreeWritten(cp: nat)
    requires 0x7FF < cp <= 0xFFFF
    ensures var b, c, d := cp / 0x1000, cp / 0x40 % 0x40, cp % 0x40;
      Utf8(cp) == [Byte(0xE0 + b), Byte(0x80 + c), Byte(0x80 + d)] && cp == b * 0x1000 + c * 0x40 + d && b < 0x10
  {
    Sixes(cp);
  }

  lemma FourWritten(cp: nat)
    requires 0xFFFF < cp <= 0x10FFFF
    ensures var a, b, c, d := cp / 0x40000, cp / 0x1000 % 0x40, cp / 0x40 % 0x40, cp % 0x40;
      && Utf8(cp) == [Byte(0xF0 + a), Byte(0x80 + b), Byte(0x80 + c), Byte(0x80 + d)]
      && cp == a * 0x40000 + b * 0x1000 + c * 0x40 + d && a <= 4
  {
    Sixes(cp);
  }

  lemma ThreeRead(b: nat, c: nat, d: nat)
    requires b < 0x10 && c < 0x40 && d < 0x40 && b * 0x1000 + c * 0x40 + d > 0x7FF
    ensures Utf8Decoded([Byte(0xE0 + b), Byte(0x80 + c), Byte(0x80 + d)]) == Some(b * 0x1000 + c * 0x40 + d)
  {
  }

  lemma FourRead(a: nat, b: nat, c: nat, d: nat)
    requires a < 8 && b < 0x40 && c < 0x40 && d < 0x40 && 0xFFFF < a * 0x40000 + b * 0x1000 + c * 0x40 + d <= 0x10FFFF
    ensures Utf8Decoded([Byte(0xF0 + a), Byte(0x80 + b), Byte(0x80 + c), Byte(0x80 + d)])
      == Some(a * 0x40000 + b * 0x1000 + c * 0x40 + d)
  {
  }

  lemma SixesBack(a: nat, b: nat, c: nat, d: nat)
    requires b < 0x40 && c < 0x40 && d < 0x40
    ensures var cp := ((a * 0x40 + b) * 0x40 + c) * 0x40 + d;
      cp % 0x40 == d && cp / 0x40 % 0x40 == c && cp / 0x1000 % 0x40 == b && cp / 0x40000 == a
  {
    var cp := ((a * 0x40 + b) * 0x40 + c) * 0x40 + d;
    assert cp / 0x40 == (a * 0x40 + b) * 0x40 + c;
    assert cp / 0x1000 == cp / 0x40 / 0x40 == a * 0x40 + b;
    assert cp / 0x40000 == cp / 0x1000 / 0x40 == a;
  }

  lemma OneForm(s: string, cp: nat)
    requires Utf8Decoded(s) == Some(cp)
    ensures s == Utf8(cp)
  {
    if |s| == 2 {
      SixesBack(0, 0, s[0] as nat - 0xC0, s[1] as nat - 0x80);
    } else if |s| == 3 {
      ThreeForm(s, cp);
    } else if |s| == 4 {
      FourForm(s, cp);
    }
  }

  lemma ThreeForm(s: string, cp: nat)
    requires |s| == 3 && Utf8Decoded(s) == Some(cp)
    ensures s == Utf8(cp)
  {
    SixesBack(0, s[0] as nat - 0xE0, s[1] as nat - 0x80, s[2] as nat - 0x80);
  }

  lemma FourForm(s: string, cp: nat)
    requires |s| == 4 && Utf8Decoded(s) == Some(cp)
    ensures s == Utf8(cp)
  {
    SixesBack(s[0] as nat - 0xF0, s[1] as nat - 0x80, s[2] as nat - 0x80, s[3] as nat - 0x80);
  }

  /** What the reader writes for a code point is its UTF-8 form, and the only one. */
  lemma Utf8Is(cp: nat, s: string)
    requires cp <= 0x10FFFF
    ensures Utf8Decoded(s) == Some(cp) <==> s == Utf8(cp)
  {
    Utf8Reads(cp);
    if Utf8Decoded(s) == Some(cp) { OneForm(s, cp); }
  }

  /** An escaped code point's text is its UTF-8 form. */
  lemma EscapesAreUtf8(p: Piece)
    requires GoodPiece(p) && (p.Unicode? || p.Pair?)
    ensures Utf8Decoded(PieceText(p)) ==
      Some(if p.Unicode? then Hex(p.hex).value else PairOf(Hex(p.high).value, Hex(p.low).value))
  {
    hide Utf8Decoded;
    hide Utf8;
    hide HexDigitOf;
    var cp := if p.Unicode? then Hex(p.hex).value else PairOf(Hex(p.high).value, Hex(p.low).value);
    if p.Unicode? { HexBound(p.hex); }
    Utf8Reads(cp);
  }

  lemma HexBound(h: string)
    requires Hex(h).Some?
    ensures Hex(h).value < 0x10000
  {
    assert forall i :: 0 <= i < 4 ==> HexDigitOf(h[i]).Some?;
  }

  function Text(ps: seq<Piece>): string
    requires GoodPieces(ps)
  {
    if ps == [] then "" else PieceText(ps[0]) + Text(ps[1..])
  }

  function Render(d: Doc): string
    decreases d, 1
  {
    d.ws + Body(d)
  }

  function Quote(ps: seq<Piece>): string { "\"" + (Spell(ps) + "\"") }

  function Body(d: Doc): string
    decreases d, 0
  {
    match d
    case DNull(_) => "null"
    case DBool(_, b) => if b then "true" else "false"
    case DInt(_, text) => text
    case DReal(_, text) => text
    case DStr(_, ps) => Quote(ps)
    case DArr(_, items, close) => "[" + (if items == [] then close + "]" else RenderItems(items))
    case DObj(_, fields, close) => "{" + (if fields == [] then close + "}" else RenderFields(fields))
  }

  function RenderItems(items: seq<Item>): string
    requires items != []
  {
    Render(items[0].doc) + (items[0].after + (if |items| == 1 then "]" else "," + RenderItems(items[1..])))
  }

  function RenderFields(fields: seq<Field>): string
    requires fields != []
  {
    fields[0].ws + (Quote(fields[0].name) + (fields[0].colon + (":" + (Render(fields[0].doc) +
      (fields[0].after + (if |fields| == 1 then "}" else "," + RenderFields(fields[1..])))))))
  }

  /** The documents of RFC 8259, with integers in 64 bits, each double accepted by the scanner, and each
      escape of a high surrogate followed by another escape. */
  predicate Good(f: Features, d: Doc)
  {
    match d
    case DNull(ws) => AllSpace(ws)
    case DBool(ws, _) => AllSpace(ws)
    case DInt(ws, text) => AllSpace(ws) && IntegerSpelling(text)
    case DReal(ws, text) => AllSpace(ws) && GoodReal(f, text)
    case DStr(ws, ps) => AllSpace(ws) && GoodPieces(ps)
    case DArr(ws, items, close) =>
      AllSpace(ws) && AllSpace(close) && forall i :: 0 <= i < |items| ==> GoodItem(f, items[i])
    case DObj(ws, fields, close) =>
      AllSpace(ws) && AllSpace(close) && forall i :: 0 <= i < |fields| ==> GoodField(f, fields[i])
  }

  predicate GoodItem(f: Features, x: Item)
  {
    Good(f, x.doc) && AllSpace(x.after)
  }

  predicate GoodField(f: Features, x: Field)
  {
    AllSpace(x.ws) && GoodPieces(x.name) && AllSpace(x.colon) && Good(f, x.doc) && AllSpace(x.after)
  }

  /** A number that is a double: it has a fraction or an exponent, or it is an integer too large for 64
      bits (of which `JsonNumber.PastTheRange` says which go to the scanner); and the scanner takes it. */
  predicate GoodReal(f: Features, text: string)
  {
    (RealSpelling(text) || (LargeSpelling(text) && DecodeNumber(text) == Double)) && f.scans(text)
  }

  /** What a document means: a repeated member name keeps its last value. */
  function Meaning(f: Features, d: Doc): Value
    requires Good(f, d)
  {
    match d
    case DNull(_) => Null
    case DBool(_, b) => Bool(b)
    case DInt(_, text) => if IntegerOf(text) < 0x8000_0000 then Int(IntegerOf(text)) else UInt(IntegerOf(text))
    case DReal(_, text) => Real(text)
    case DStr(_, ps) => Str(CStr(Text(ps)))
    case DArr(_, items, _) => Arr(ItemsMeaning(f, items))
    case DObj(_, fields, _) => Obj(FieldsMeaning(f, fields, []))
  }

  function ItemsMeaning(f: Features, items: seq<Item>): seq<Value>
    requires forall i :: 0 <= i < |items| ==> GoodItem(f, items[i])
  {
    if items == [] then []
    else
      assert GoodItem(f, items[0]);
      [Meaning(f, items[0].doc)] + ItemsMeaning(f, items[1..])
  }

  function FieldsMeaning(f: Features, fields: seq<Field>, ms: seq<Member>): seq<Member>
    requires forall i :: 0 <= i < |fields| ==> GoodField(f, fields[i])
  {
    if fields == [] then ms
    else
      assert GoodField(f, fields[0]);
      FieldsMeaning(f, fields[1..], Put(ms, CStr(Text(fields[0].name)), Meaning(f, fields[0].doc)))
  }

  // ---- Tokens -------------------------------------------------------------

  /** The reader's classes of characters are those of RFC 8259. */
  lemma Characters(c: char)
    ensures IsSpace(c) <==> AllSpace([c])
    ensures IsNumberChar(c) <==> !EndsNumber(c)
    ensures IsDigit(c) <==> HexDigitOf(c).Some? && HexDigitOf(c).value < 10
    ensures HexValue(c) == HexDigitOf(c)
    ensures SimpleEscape(c) == if c in NAMED then Some(NAMED[c]) else None
  {
    hide *;
    Spaces(c);
    NumberCharacters(c);
    HexValueIs(c);
    Escapes(c);
  }

  lemma Spaces(c: char)
    ensures IsSpace(c) <==> AllSpace([c])
  {
    assert AllSpace([c]) <==> [c][0] == ' ' || [c][0] == '\t' || [c][0] == '\n' || [c][0] == '\r';
  }

  lemma NumberCharacters(c: char)
    ensures IsNumberChar(c) <==> !EndsNumber(c)
    ensures IsDigit(c) <==> HexDigitOf(c).Some? && HexDigitOf(c).value < 10
  {
  }

  lemma Escapes(c: char)
    ensures SimpleEscape(c) == if c in NAMED then Some(NAMED[c]) else None
  {
  }

  lemma {:induction false} SkipsSpace(doc: string, p: nat, ws: string)
    requires At(doc, p, ws) && AllSpace(ws)
    requires p + |ws| < |doc| ==> !IsSpace(doc[p + |ws|])
    ensures SkipSpaces(doc, p) == p + |ws|
    decreases |ws|
  {
    if ws != [] {
      AtRest(doc, p, ws);
      SkipsSpace(doc, p + 1, ws[1..]);
    }
  }

  lemma {:induction false} NumberEnds(doc: string, p: nat, s: string)
    requires At(doc, p, s) && forall i :: 0 <= i < |s| ==> IsNumberChar(s[i])
    requires p + |s| < |doc| ==> !IsNumberChar(doc[p + |s|])
    ensures NumberEnd(doc, p) == p + |s|
    decreases |s|
  {
    if s != [] {
      AtRest(doc, p, s);
      NumberEnds(doc, p + 1, s[1..]);
    }
  }

  lemma HexDigits(h: string)
    requires Hex(h).Some?
    ensures forall j :: 0 <= j < |h| ==> h[j] != '"' && h[j] != '\\'
  {
    forall j | 0 <= j < |h| ensures h[j] != '"' && h[j] != '\\' { assert HexDigitOf(h[j]).Some?; }
  }

  lemma {:induction false} StringPasses(doc: string, p: nat, s: string)
    requires At(doc, p, s) && forall i :: 0 <= i < |s| ==> s[i] != '"' && s[i] != '\\'
    ensures StringEnd(doc, p) == StringEnd(doc, p + |s|)
    decreases |s|
  {
    if s != [] {
      AtRest(doc, p, s);
      StringPasses(doc, p + 1, s[1..]);
    }
  }

  lemma UnicodePasses(doc: string, p: nat, h: string)
    requires At(doc, p, ['\\', 'u'] + h) && Hex(h).Some?
    ensures StringEnd(doc, p) == StringEnd(doc, p + 6)
  {
    AtSplit(doc, p, ['\\', 'u'], h);
    AtRest(doc, p, ['\\', 'u']);
    HexDigits(h);
    StringPasses(doc, p + 2, h);
  }

  lemma EscapePasses(doc: string, p: nat, e: char)
    requires At(doc, p, ['\\', e])
    ensures StringEnd(doc, p) == StringEnd(doc, p + 2)
  {
    AtChar(doc, p, ['\\', e], 0);
  }

  lemma PiecePasses(doc: string, p: nat, x: Piece)
    requires At(doc, p, SpellPiece(x)) && GoodPiece(x)
    ensures StringEnd(doc, p) == StringEnd(doc, p + |SpellPiece(x)|)
  {
    hide Hex;
    hide StringEnd;
    match x
    case Plain(c) => StringPasses(doc, p, [c]);
    case Escape(e) => EscapePasses(doc, p, e);
    case Unicode(h) => UnicodePasses(doc, p, h);
    case Pair(h, l) =>
      AtSplit(doc, p, ['\\', 'u'] + h, ['\\', 'u'] + l);
      UnicodePasses(doc, p, h);
      UnicodePasses(doc, p + 6, l);
  }

  lemma SpellStep(ps: seq<Piece>)
    requires ps != [] && GoodPieces(ps)
    ensures Spell(ps) == SpellPiece(ps[0]) + Spell(ps[1..]) && |Spell(ps)| == |SpellPiece(ps[0])| + |Spell(ps[1..])|
    ensures GoodPiece(ps[0]) && GoodPieces(ps[1..]) && Text(ps) == PieceText(ps[0]) + Text(ps[1..])
  {
  }

  lemma QuoteEnds(doc: string, p: nat)
    requires p < |doc| && doc[p] == '"'
    ensures StringEnd(doc, p) == (true, p + 1) && Spell([]) == ""
  {
  }

  lemma {:induction false} StringEnds(doc: string, p: nat, ps: seq<Piece>, end: nat)
    requires At(doc, p, Spell(ps)) && end == p + |Spell(ps)| && GoodPieces(ps)
    requires p <= end < |doc| && doc[end] == '"'
    ensures StringEnd(doc, p) == (true, end + 1)
    decreases |ps|
  {
    hide *;
    if ps == [] {
      QuoteEnds(doc, end);
    } else {
      SpellStep(ps);
      AtSplit(doc, p, SpellPiece(ps[0]), Spell(ps[1..]));
      PiecePasses(doc, p, ps[0]);
      StringEnds(doc, p + |SpellPiece(ps[0])|, ps[1..], end);
    }
  }

  // ---- Strings ------------------------------------------------------------

  lemma {:induction false} HexMoves(text: string, i: nat, h: string, j: nat, acc: nat)
    requires At(text, i, h) && j <= |h|
    ensures HexLoop(text, i + j, i + |h|, acc) == HexLoop(h, j, |h|, acc)
    decreases |h| - j
  {
    if j < |h| {
      AtChar(text, i, h, j);
      if HexValue(h[j]).Some? { HexMoves(text, i, h, j + 1, acc * 16 + HexValue(h[j]).value); }
    }
  }

  lemma HexValueIs(c: char)
    ensures HexValue(c) == HexDigitOf(c)
  {
  }

  /** Reading four digits one after the other gives the number they spell. */
  lemma HexIs(h: string)
    requires |h| == 4
    ensures HexLoop(h, 0, 4, 0) == Hex(h)
  {
    hide HexValue;
    hide HexDigitOf;
    HexValueIs(h[0]);
    HexValueIs(h[1]);
    HexValueIs(h[2]);
    HexValueIs(h[3]);
    if Hex(h).Some? {
      var a, b, c, d := HexDigitOf(h[0]).value, HexDigitOf(h[1]).value, HexDigitOf(h[2]).value, HexDigitOf(h[3]).value;
      assert HexLoop(h, 3, 4, (a * 16 + b) * 16 + c) == Some(((a * 16 + b) * 16 + c) * 16 + d);
      assert HexLoop(h, 1, 4, a) == HexLoop(h, 2, 4, a * 16 + b);
    } else {
      var k :| 0 <= k < 4 && HexDigitOf(h[k]) == None;
      BadDigit(h, 0, k, 0);
    }
  }

  lemma {:induction false} BadDigit(h: string, i: nat, k: nat, acc: nat)
    requires i <= k < |h| && HexValue(h[k]) == None
    ensures HexLoop(h, i, |h|, acc) == None
    decreases k - i
  {
    hide HexValue;
    if i < k && HexValue(h[i]).Some? { BadDigit(h, i + 1, k, acc * 16 + HexValue(h[i]).value); }
  }

  lemma Hex4Reads(text: string, i: nat, h: string)
    requires At(text, i, ['\\', 'u'] + h) && |h| == 4
    ensures text[i] == '\\' && text[i + 1] == 'u' && Hex4(text, i + 2) == Hex(h)
  {
    hide HexValue;
    hide Hex;
    HexIs(h);
    AtSplit(text, i, ['\\', 'u'], h);
    AtRest(text, i, ['\\', 'u']);
    AtRest(text, i + 1, ['\\', 'u'][1..]);
    HexMoves(text, i + 2, h, 0, 0);
  }

  lemma PairIs(high: nat, low: nat)
    requires 0xD800 <= high <= 0xDBFF
    ensures Combined(high, low) == PairOf(high, low)
  {
  }

  lemma CodePointReads(text: string, i: nat, x: Piece)
    requires GoodPiece(x) && (x.Unicode? || x.Pair?) && At(text, i, SpellPiece(x))
    ensures text[i] == '\\' && text[i + 1] == 'u'
    ensures CodePoint(text, i + 2).Some? && CodePoint(text, i + 2).value.1 == i + |SpellPiece(x)|
    ensures Utf8(CodePoint(text, i + 2).value.0) == PieceText(x)
  {
    hide Hex;
    hide Hex4;
    hide Utf8;
    hide Combined;
    hide PairOf;
    if x.Unicode? {
      Hex4Reads(text, i, x.hex);
    } else {
      PairIs(Hex(x.high).value, Hex(x.low).value);
      AtSplit(text, i, ['\\', 'u'] + x.high, ['\\', 'u'] + x.low);
      Hex4Reads(text, i, x.high);
      Hex4Reads(text, i + 6, x.low);
    }
  }

  /** Escaping is undone: the inside of a spelled string decodes to the text of its pieces. */
  lemma {:induction false} Unescapes(text: string, i: nat, ps: seq<Piece>)
    requires At(text, i, Spell(ps)) && i + |Spell(ps)| == |text| && GoodPieces(ps)
    ensures Unescape(text, i) == Some(Text(ps))
    decreases |ps|
  {
    hide *;
    if ps == [] {
      NothingSpelled(text);
    } else {
      var x := ps[0];
      SpellStep(ps);
      AtSplit(text, i, SpellPiece(x), Spell(ps[1..]));
      Unescapes(text, i + |SpellPiece(x)|, ps[1..]);
      PieceReads(text, i, x);
      Prepended(PieceText(x), Text(ps[1..]));
    }
  }

  lemma NothingSpelled(text: string)
    ensures Spell([]) == "" && Text([]) == "" && Unescape(text, |text|) == Some("")
  {
  }

  lemma Prepended(a: string, b: string)
    ensures Prepend(a, Some(b)) == Some(a + b)
  {
  }

  lemma PlainReads(text: string, i: nat, c: char)
    requires At(text, i, [c]) && c != '"' && c != '\\'
    ensures Unescape(text, i) == Prepend([c], Unescape(text, i + 1))
  {
    AtRest(text, i, [c]);
  }

  lemma EscapeReads(text: string, i: nat, e: char)
    requires At(text, i, ['\\', e]) && e in NAMED
    ensures Unescape(text, i) == Prepend([NAMED[e]], Unescape(text, i + 2))
  {
    AtChar(text, i, ['\\', e], 0);
    AtChar(text, i, ['\\', e], 1);
  }

  lemma UnicodeReads(text: string, i: nat, cp: nat, end: nat)
    requires i + 1 < |text| && text[i] == '\\' && text[i + 1] == 'u' && CodePoint(text, i + 2) == Some((cp, end))
    ensures end <= |text| && Unescape(text, i) == Prepend(Utf8(cp), Unescape(text, end))
  {
    hide CodePoint;
    hide Utf8;
  }

  /** One piece is decoded to its text, and decoding goes on after it. */
  lemma PieceReads(text: string, i: nat, x: Piece)
    requires At(text, i, SpellPiece(x)) && GoodPiece(x)
    ensures i + |SpellPiece(x)| <= |text|
    ensures Unescape(text, i) == Prepend(PieceText(x), Unescape(text, i + |SpellPiece(x)|))
  {
    hide Unescape;
    hide CodePoint;
    hide Utf8;
    match x
    case Plain(c) => PlainReads(text, i, c);
    case Escape(e) => EscapeReads(text, i, e);
    case Unicode(_) =>
      CodePointReads(text, i, x);
      UnicodeReads(text, i, CodePoint(text, i + 2).value.0, i + |SpellPiece(x)|);
    case Pair(_, _) =>
      CodePointReads(text, i, x);
      UnicodeReads(text, i, CodePoint(text, i + 2).value.0, i + |SpellPiece(x)|);
  }

  lemma QuotesSplit(doc: string, p: nat, text: string) returns (end: nat)
    requires At(doc, p, "\"" + (text + "\""))
    ensures end == p + 1 + |text| < |doc| && doc[p] == '"' && doc[end] == '"' && At(doc, p + 1, text)
  {
    AtSplit(doc, p, "\"", text + "\"");
    AtRest(doc, p, "\"");
    AtSplit(doc, p + 1, text, "\"");
    end := p + 1 + |text|;
    AtRest(doc, end, "\"");
  }

  lemma QuoteToken(doc: string, p: nat, end: nat)
    requires p < |doc| && doc[p] == '"' && StringEnd(doc, p + 1) == (true, end)
    ensures TokenAt(doc, p) == Token(QuotedString, p, end)
  {
    hide StringEnd;
  }

  lemma StringTextIs(doc: string, t: Token, p: nat, text: string)
    requires At(doc, p, text) && t.start + 1 == p && t.end == p + |text| + 1 && t.end <= |doc|
    ensures StringText(doc, t) == Unescape(text, 0)
  {
  }

  /** A spelled string, quotes included, is one token, and its text is that of its pieces. */
  lemma StringReads(doc: string, p: nat, ps: seq<Piece>) returns (t: Token)
    requires At(doc, p, Quote(ps)) && GoodPieces(ps)
    ensures p < |doc| && doc[p] == '"' && t == TokenAt(doc, p)
    ensures t == Token(QuotedString, p, p + |Spell(ps)| + 2) && StringText(doc, t) == Some(Text(ps))
  {
    hide TokenAt;
    hide StringText;
    hide Text;
    hide Spell;
    hide GoodPieces;
    hide StringEnd;
    hide Unescape;
    var text := Spell(ps);
    var end := QuotesSplit(doc, p, text);
    StringEnds(doc, p + 1, ps, end);
    Unescapes(text, 0, ps);
    QuoteToken(doc, p, end + 1);
    t := TokenAt(doc, p);
    StringTextIs(doc, t, p + 1, text);
  }

  // ---- Values -------------------------------------------------------------

  /** What may follow a number: nothing, or a character that cannot go on with it. */
  predicate Delimited(doc: string, p: nat)
  {
    p < |doc| ==> EndsNumber(doc[p])
  }

  predicate EndsNumber(c: char) { c !in "0123456789.eE+-" }

  lemma BodyStarts(f: Features, d: Doc)
    requires Good(f, d)
    ensures AllSpace(d.ws) && Body(d) != "" && !IsSpace(Body(d)[0]) && Body(d)[0] != ']' && Body(d)[0] != '/'
    ensures d.DArr? ==> Body(d)[0] == '['
    ensures d.DObj? ==> Body(d)[0] == '{'
  {
    if d.DInt? { SpellingDecodes(d.text); }
  }

  /** White space before a token is skipped, whichever way the reader looks for the token. */
  lemma SpaceSkipped(f: Features, doc: string, p: nat, ws: string, rest: string) returns (q: nat)
    requires At(doc, p, ws + rest) && AllSpace(ws) && rest != "" && !IsSpace(rest[0]) && rest[0] != '/'
    ensures q == p + |ws| < |doc| && At(doc, q, rest) && doc[q] == rest[0] && SkipSpaces(doc, p) == q
    ensures NextToken(doc, p) == TokenAt(doc, q)
    ensures TokenAt(doc, q).kind != Comment ==>
      NextNonComment(doc, p) == TokenAt(doc, q) && FirstToken(f, doc, p) == TokenAt(doc, q)
  {
    q := p + |ws|;
    AtSplit(doc, p, ws, rest);
    AtRest(doc, q, rest);
    SkipsSpace(doc, p, ws);
  }

  lemma WordReads(doc: string, q: nat, w: string, kind: Kind)
    requires w != "" && At(doc, q, w)
    ensures WordToken(doc, q, kind, w[1..]) == Token(kind, q, q + |w|)
  {
    AtRest(doc, q, w);
  }

  lemma NumberReads(doc: string, q: nat, text: string) returns (t: Token)
    requires text != "" && At(doc, q, text) && (IsDigit(text[0]) || text[0] == '-')
    requires forall i :: 0 <= i < |text| ==> IsNumberChar(text[i])
    requires Delimited(doc, q + |text|)
    ensures q < |doc| && t == TokenAt(doc, q) && t == Token(Number, q, q + |text|) && doc[t.start..t.end] == text
  {
    AtRest(doc, q, text);
    NumberEnds(doc, q + 1, text[1..]);
    t := TokenAt(doc, q);
  }

  lemma WordDocReads(f: Features, doc: string, q: nat, d: Doc)
    requires Good(f, d) && (d.DNull? || d.DBool?) && At(doc, q, Body(d)) && q < |doc| && doc[q] == Body(d)[0]
    ensures var t := TokenAt(doc, q);
      t.end == q + |Body(d)| &&
      t.kind == if d.DNull? then NullWord else if d.b then TrueWord else FalseWord
  {
    match d
    case DNull(_) => WordReads(doc, q, "null", NullWord); assert "null"[1..] == "ull";
    case DBool(_, b) =>
      if b {
        WordReads(doc, q, "true", TrueWord);
        assert "true"[1..] == "rue";
      } else {
        WordReads(doc, q, "false", FalseWord);
        assert "false"[1..] == "alse";
      }
  }

  /** What a value's first token makes of it, when it has no parts. */
  lemma LeafValue(f: Features, doc: string, p: nat, t: Token)
    requires p <= |doc| && FirstToken(f, doc, p) == t
    ensures t.kind == NullWord ==> ParseValue(f, doc, p) == Some((Null, t.end))
    ensures t.kind == TrueWord ==> ParseValue(f, doc, p) == Some((Bool(true), t.end))
    ensures t.kind == FalseWord ==> ParseValue(f, doc, p) == Some((Bool(false), t.end))
    ensures t.kind == QuotedString && StringText(doc, t).Some? ==>
      ParseValue(f, doc, p) == Some((Str(CStr(StringText(doc, t).value)), t.end))
    ensures t.kind == Number && NumberValue(f, doc[t.start..t.end]).Some? ==>
      ParseValue(f, doc, p) == Some((NumberValue(f, doc[t.start..t.end]).value, t.end))
  {
    hide FirstToken;
    hide StringText;
    hide NumberValue;
  }

  lemma NumberMeaning(f: Features, d: Doc)
    requires Good(f, d) && (d.DInt? || d.DReal?)
    ensures NumberValue(f, Body(d)) == Some(Meaning(f, d))
    ensures Body(d) != "" && (IsDigit(Body(d)[0]) || Body(d)[0] == '-')
    ensures forall i :: 0 <= i < |Body(d)| ==> IsNumberChar(Body(d)[i])
  {
    hide DecodeNumber;
    if d.DInt? {
      SpellingDecodes(d.text);
    } else {
      RealReads(f, d.text);
    }
  }

  lemma RealReads(f: Features, text: string)
    requires GoodReal(f, text)
    ensures NumberValue(f, text) == Some(Real(text))
    ensures text != "" && (IsDigit(text[0]) || text[0] == '-')
    ensures forall i :: 0 <= i < |text| ==> IsNumberChar(text[i])
  {
    hide DecodeNumber;
    hide RealSpelling;
    hide Spelled;
    if RealSpelling(text) { RealIsDouble(text); }
  }

  lemma WordMeaning(f: Features, d: Doc)
    requires Good(f, d) && (d.DNull? || d.DBool?)
    ensures Meaning(f, d) == if d.DNull? then Null else Bool(d.b)
  {
  }

  lemma StringMeaning(f: Features, d: Doc)
    requires Good(f, d) && d.DStr?
    ensures GoodPieces(d.pieces) && Meaning(f, d) == Str(CStr(Text(d.pieces))) && Body(d) == Quote(d.pieces)
    ensures |Body(d)| == |Spell(d.pieces)| + 2
  {
    hide Spell;
  }

  /** A document without parts is read as its meaning. */
  lemma LeafReads(f: Features, doc: string, p: nat, q: nat, d: Doc)
    requires Good(f, d) && !d.DArr? && !d.DObj? && p <= |doc|
    requires At(doc, q, Body(d)) && Delimited(doc, q + |Body(d)|)
    requires q < |doc| && doc[q] == Body(d)[0]
    requires TokenAt(doc, q).kind != Comment ==> FirstToken(f, doc, p) == TokenAt(doc, q)
    ensures ParseValue(f, doc, p) == Some((Meaning(f, d), q + |Body(d)|))
  {
    hide *;
    if d.DNull? || d.DBool? {
      WordDocReads(f, doc, q, d);
      WordMeaning(f, d);
    } else if d.DStr? {
      StringMeaning(f, d);
      var t := StringReads(doc, q, d.pieces);
    } else {
      NumberMeaning(f, d);
      var t := NumberReads(doc, q, Body(d));
    }
    LeafValue(f, doc, p, TokenAt(doc, q));
  }

  /** Looking for a value from after the white space is the same as looking from before it. */
  lemma ItemsSkipSpace(f: Features, doc: string, p: nat)
    requires p <= |doc|
    ensures ParseItems(f, doc, SkipSpaces(doc, p)) == ParseItems(f, doc, p)
  {
    var q := SkipSpaces(doc, p);
    assert SkipSpaces(doc, q) == q;
    assert NextToken(doc, q) == NextToken(doc, p) && NextNonComment(doc, q) == NextNonComment(doc, p);
    assert ParseValue(f, doc, q) == ParseValue(f, doc, p);
  }

  /** Every document is read as its meaning, and reading stops where the document stops. */
  lemma {:induction false} ValueReads(f: Features, doc: string, p: nat, d: Doc)
    requires Good(f, d) && At(doc, p, Render(d)) && Delimited(doc, p + |Render(d)|)
    ensures ParseValue(f, doc, p) == Some((Meaning(f, d), p + |Render(d)|))
    decreases d, 1
  {
    hide ParseValue;
    hide Meaning;
    hide TokenAt;
    hide FirstToken;
    hide Delimited;
    hide Good;
    hide Body;
    BodyStarts(f, d);
    var q := SpaceSkipped(f, doc, p, d.ws, Body(d));
    match d
    case DArr(_, items, close) => ArrayReads(f, doc, p, q, d);
    case DObj(_, fields, close) => ObjectReads(f, doc, p, q, d);
    case _ => LeafReads(f, doc, p, q, d);
  }

  /** How an array and an object are read once their opening token has been. */
  lemma ArrayOpens(f: Features, doc: string, p: nat, q: nat)
    requires p <= |doc| && q < |doc| && doc[q] == '['
    requires TokenAt(doc, q).kind != Comment ==> FirstToken(f, doc, p) == TokenAt(doc, q)
    ensures Peek(doc, SkipSpaces(doc, q + 1)) == ']' ==>
      ParseValue(f, doc, p) == Some((Arr([]), SkipSpaces(doc, q + 1) + 1))
    ensures Peek(doc, SkipSpaces(doc, q + 1)) != ']' && ParseItems(f, doc, q + 1).Some? ==>
      ParseValue(f, doc, p) == Some((Arr(ParseItems(f, doc, q + 1).value.0), ParseItems(f, doc, q + 1).value.1))
  {
    hide *;
    ItemsSkipSpace(f, doc, q + 1);
    BracketToken(doc, q);
    ArrayValue(f, doc, p);
    ArrayParts(f, doc, q + 1);
  }

  lemma BracketToken(doc: string, q: nat)
    requires q < |doc| && doc[q] == '['
    ensures TokenAt(doc, q) == Token(ArrayBegin, q, q + 1)
  {
  }

  lemma ArrayValue(f: Features, doc: string, p: nat)
    requires p <= |doc| && FirstToken(f, doc, p).kind == ArrayBegin
    ensures ParseValue(f, doc, p) == ParseArray(f, doc, FirstToken(f, doc, p).end)
  {
    hide FirstToken;
    hide ParseArray;
  }

  lemma ArrayParts(f: Features, doc: string, p: nat)
    requires p <= |doc|
    ensures var q := SkipSpaces(doc, p);
      ParseArray(f, doc, p) ==
        if Peek(doc, q) == ']' then Some((Arr([]), q + 1))
        else if ParseItems(f, doc, q).Some? then
          Some((Arr(ParseItems(f, doc, q).value.0), ParseItems(f, doc, q).value.1))
        else None
  {
    hide SkipSpaces;
    hide Peek;
    hide ParseItems;
  }

  lemma ObjectOpens(f: Features, doc: string, p: nat, q: nat)
    requires p <= |doc| && q < |doc| && doc[q] == '{'
    requires TokenAt(doc, q).kind != Comment ==> FirstToken(f, doc, p) == TokenAt(doc, q)
    ensures ParseMembers(f, doc, q + 1, [], "").Some? ==>
      var (ms, end) := ParseMembers(f, doc, q + 1, [], "").value;
      ParseValue(f, doc, p) == Some((Obj(ms), end))
  {
  }

  lemma ArrayUnfold(f: Features, d: Doc)
    requires Good(f, d) && d.DArr?
    ensures forall i :: 0 <= i < |d.items| ==> GoodItem(f, d.items[i])
    ensures AllSpace(d.close) && Meaning(f, d) == Arr(ItemsMeaning(f, d.items))
    ensures Body(d) == "[" + (if d.items == [] then d.close + "]" else RenderItems(d.items))
    ensures d.items == [] ==> ItemsMeaning(f, d.items) == []
  {
  }

  lemma EmptyArrayReads(f: Features, doc: string, p: nat, close: string)
    requires At(doc, p, close + "]") && AllSpace(close)
    ensures p <= |doc| && Peek(doc, SkipSpaces(doc, p)) == ']' && SkipSpaces(doc, p) + 1 == p + |close| + 1
  {
    var e := SpaceSkipped(f, doc, p, close, "]");
  }

  lemma {:induction false} ArrayReads(f: Features, doc: string, p: nat, q: nat, d: Doc)
    requires Good(f, d) && d.DArr? && p <= |doc| && At(doc, q, Body(d)) && q < |doc| && doc[q] == '['
    requires TokenAt(doc, q).kind != Comment ==> FirstToken(f, doc, p) == TokenAt(doc, q)
    ensures ParseValue(f, doc, p) == Some((Meaning(f, d), q + |Body(d)|))
    decreases d, 0
  {
    hide *;
    ArrayUnfold(f, d);
    ArrayOpens(f, doc, p, q);
    if d.items == [] {
      AtSplit(doc, q, "[", d.close + "]");
      EmptyArrayReads(f, doc, q + 1, d.close);
    } else {
      AtSplit(doc, q, "[", RenderItems(d.items));
      ItemsReads(f, doc, q + 1, d.items);
      FirstItemNotBracket(f, doc, q + 1, d.items);
    }
  }

  lemma FirstItemNotBracket(f: Features, doc: string, p: nat, items: seq<Item>)
    requires items != [] && GoodItem(f, items[0]) && At(doc, p, RenderItems(items))
    ensures Peek(doc, SkipSpaces(doc, p)) != ']'
  {
    var d := items[0].doc;
    BodyStarts(f, d);
    AtSplit(doc, p, Render(d), items[0].after + (if |items| == 1 then "]" else "," + RenderItems(items[1..])));
    var q := SpaceSkipped(f, doc, p, d.ws, Body(d));
  }

  /** What follows an element is white space and then a separator or a bracket: it ends any number. */
  lemma SeparatorFollows(f: Features, doc: string, p: nat, after: string, rest: string) returns (q: nat)
    requires At(doc, p, after + rest) && AllSpace(after) && rest != "" && rest[0] in ",]}"
    ensures Delimited(doc, p) && q == p + |after| < |doc| && At(doc, q, rest) && doc[q] == rest[0]
    ensures NextToken(doc, p) == TokenAt(doc, q) == NextNonComment(doc, p)
    ensures var kind := if rest[0] == ',' then ArraySeparator else if rest[0] == ']' then ArrayEnd else ObjectEnd;
      TokenAt(doc, q) == Token(kind, q, q + 1)
  {
    q := SpaceSkipped(f, doc, p, after, rest);
    if after != "" { AtSplit(doc, p, after, rest); AtRest(doc, p, after); }
  }

  /** An element, then white space, then a separator: reading goes on after a comma and stops after a bracket. */
  lemma ItemStep(f: Features, doc: string, p: nat, v: Value, end: nat, q: nat)
    requires p <= |doc| && ParseValue(f, doc, p) == Some((v, end)) && q < |doc|
    requires NextNonComment(doc, end) == Token(if doc[q] == ',' then ArraySeparator else ArrayEnd, q, q + 1)
    ensures doc[q] != ',' ==> ParseItems(f, doc, p) == Some(([v], q + 1))
    ensures doc[q] == ',' && ParseItems(f, doc, q + 1).Some? ==>
      ParseItems(f, doc, p) == Some(([v] + ParseItems(f, doc, q + 1).value.0, ParseItems(f, doc, q + 1).value.1))
  {
    hide NextToken;
    hide NextNonComment;
  }

  function ItemsTail(items: seq<Item>): string
    requires items != []
  {
    if |items| == 1 then "]" else "," + RenderItems(items[1..])
  }

  lemma ItemsUnfold(f: Features, doc: string, p: nat, items: seq<Item>)
    requires items != [] && (forall i :: 0 <= i < |items| ==> GoodItem(f, items[i])) && At(doc, p, RenderItems(items))
    ensures var x, tail := items[0], ItemsTail(items);
      && p <= |doc| && Good(f, x.doc) && AllSpace(x.after)
      && RenderItems(items) == Render(x.doc) + (x.after + tail)
      && |RenderItems(items)| == |Render(x.doc)| + |x.after| + |tail|
      && tail != "" && tail[0] == (if |items| == 1 then ']' else ',')
      && (if |items| == 1 then tail == "]"
        else tail == "," + RenderItems(items[1..]) && |tail| == 1 + |RenderItems(items[1..])|)
    ensures ItemsMeaning(f, items) ==
      if |items| == 1 then [Meaning(f, items[0].doc)] else [Meaning(f, items[0].doc)] + ItemsMeaning(f, items[1..])
  {
    assert GoodItem(f, items[0]);
    if |items| == 1 { assert items[1..] == []; }
  }

  lemma {:induction false} ItemsReads(f: Features, doc: string, p: nat, items: seq<Item>)
    requires items != [] && (forall i :: 0 <= i < |items| ==> GoodItem(f, items[i])) && At(doc, p, RenderItems(items))
    ensures p <= |doc| && ParseItems(f, doc, p) == Some((ItemsMeaning(f, items), p + |RenderItems(items)|))
    decreases items
  {
    hide *;
    ItemsUnfold(f, doc, p, items);
    var x, tail := items[0], ItemsTail(items);
    var text := Render(x.doc);
    AtSplit(doc, p, text, x.after + tail);
    var q := SeparatorFollows(f, doc, p + |text|, x.after, tail);
    ValueReads(f, doc, p, x.doc);
    ItemStep(f, doc, p, Meaning(f, x.doc), p + |text|, q);
    if |items| > 1 {
      AtSplit(doc, q, ",", RenderItems(items[1..]));
      ItemsReads(f, doc, q + 1, items[1..]);
    }
  }

  lemma EmptyObjectReads(f: Features, doc: string, p: nat, close: string)
    requires At(doc, p, close + "}") && AllSpace(close)
    ensures p <= |doc| && ParseMembers(f, doc, p, [], "") == Some(([], p + |close| + 1))
  {
    var e := SpaceSkipped(f, doc, p, close, "}");
  }

  lemma ObjectUnfold(f: Features, d: Doc)
    requires Good(f, d) && d.DObj?
    ensures forall i :: 0 <= i < |d.fields| ==> GoodField(f, d.fields[i])
    ensures AllSpace(d.close) && Meaning(f, d) == Obj(FieldsMeaning(f, d.fields, []))
    ensures Body(d) == "{" + (if d.fields == [] then d.close + "}" else RenderFields(d.fields))
    ensures d.fields == [] ==> FieldsMeaning(f, d.fields, []) == []
  {
  }

  lemma {:induction false} ObjectReads(f: Features, doc: string, p: nat, q: nat, d: Doc)
    requires Good(f, d) && d.DObj? && p <= |doc| && At(doc, q, Body(d)) && q < |doc| && doc[q] == '{'
    requires TokenAt(doc, q).kind != Comment ==> FirstToken(f, doc, p) == TokenAt(doc, q)
    ensures ParseValue(f, doc, p) == Some((Meaning(f, d), q + |Body(d)|))
    decreases d, 0
  {
    hide *;
    ObjectUnfold(f, d);
    ObjectOpens(f, doc, p, q);
    if d.fields == [] {
      AtSplit(doc, q, "{", d.close + "}");
      EmptyObjectReads(f, doc, q + 1, d.close);
    } else {
      AtSplit(doc, q, "{", RenderFields(d.fields));
      FieldsReads(f, doc, q + 1, d.fields, [], "");
    }
  }

  /** A name, a colon, a value and a separator: the member is put, and reading goes on or stops. */
  lemma FieldStep(f: Features, doc: string, p: nat, ms: seq<Member>, name: string,
    t: Token, name': string, c: nat, v: Value, end: nat, e: nat)
    requires p <= |doc| && NextNonComment(doc, p) == t && t.kind == QuotedString && StringText(doc, t) == Some(name')
    requires NextToken(doc, t.end) == Token(MemberSeparator, c, c + 1) && ParseValue(f, doc, c + 1) == Some((v, end))
    requires e < |doc| && NextToken(doc, end) == Token(if doc[e] == ',' then ArraySeparator else ObjectEnd, e, e + 1)
    ensures var ms' := Put(ms, CStr(name'), v);
      ParseMembers(f, doc, p, ms, name)
        == if doc[e] == ',' then ParseMembers(f, doc, e + 1, ms', name') else Some((ms', e + 1))
  {
    hide StringText;
    hide CStr;
    hide NextToken;
    hide NextNonComment;
  }

  function FieldsTail(fields: seq<Field>): string
    requires fields != []
  {
    if |fields| == 1 then "}" else "," + RenderFields(fields[1..])
  }

  lemma FieldsUnfold(f: Features, doc: string, p: nat, fields: seq<Field>, ms: seq<Member>)
    requires fields != [] && At(doc, p, RenderFields(fields))
    requires forall i :: 0 <= i < |fields| ==> GoodField(f, fields[i])
    ensures var x, tail := fields[0], FieldsTail(fields);
      && p <= |doc| && GoodField(f, x) && Good(f, x.doc) && GoodPieces(x.name)
      && RenderFields(fields) == x.ws + (Quote(x.name) + (x.colon + (":" + (Render(x.doc) + (x.after + tail)))))
      && tail != "" && tail[0] == (if |fields| == 1 then '}' else ',')
      && (if |fields| == 1 then tail == "}"
        else tail == "," + RenderFields(fields[1..]) && |tail| == 1 + |RenderFields(fields[1..])|)
    ensures var x := fields[0];
      var ms' := Put(ms, CStr(Text(x.name)), Meaning(f, x.doc));
      FieldsMeaning(f, fields, ms) == if |fields| == 1 then ms' else FieldsMeaning(f, fields[1..], ms')
  {
    assert GoodField(f, fields[0]);
    if |fields| == 1 { assert fields[1..] == []; }
  }

  lemma ColonFollows(f: Features, doc: string, p: nat, ws: string, rest: string) returns (c: nat)
    requires At(doc, p, ws + (":" + rest)) && AllSpace(ws)
    ensures c == p + |ws| < |doc| && At(doc, c + 1, rest)
    ensures NextToken(doc, p) == Token(MemberSeparator, c, c + 1)
  {
    c := SpaceSkipped(f, doc, p, ws, ":" + rest);
    AtSplit(doc, c, ":", rest);
  }

  lemma NameFollows(f: Features, doc: string, p: nat, ws: string, name: seq<Piece>, rest: string) returns (t: Token)
    requires At(doc, p, ws + (Quote(name) + rest)) && AllSpace(ws) && GoodPieces(name)
    ensures p <= |doc| && NextNonComment(doc, p) == t && t.kind == QuotedString && t.start + 2 <= t.end <= |doc|
    ensures StringText(doc, t) == Some(Text(name))
    ensures t.end == p + |ws| + |Quote(name)| && At(doc, t.end, rest)
  {
    hide TokenAt;
    hide NextToken;
    hide NextNonComment;
    hide Text;
    hide Spell;
    hide GoodPieces;
    hide StringText;
    var q := SpaceSkipped(f, doc, p, ws, Quote(name) + rest);
    AtSplit(doc, q, Quote(name), rest);
    t := StringReads(doc, q, name);
  }

  /** Where the parts of a field stand. */
  lemma FieldParts(f: Features, doc: string, p: nat, x: Field, value: string, tail: string)
    returns (t: Token, c: nat, e: nat)
    requires AllSpace(x.ws) && AllSpace(x.colon) && AllSpace(x.after) && GoodPieces(x.name) && tail != "" &&
      tail[0] in ",}"
    requires At(doc, p, x.ws + (Quote(x.name) + (x.colon + (":" + (value + (x.after + tail))))))
    ensures p <= |doc| && NextNonComment(doc, p) == t && t.kind == QuotedString && t.start + 2 <= t.end <= |doc|
    ensures StringText(doc, t) == Some(Text(x.name))
    ensures c < |doc| && NextToken(doc, t.end) == Token(MemberSeparator, c, c + 1)
    ensures At(doc, c + 1, value) && Delimited(doc, c + 1 + |value|) && c + 1 + |value| <= |doc|
    ensures e < |doc| && doc[e] == tail[0] && At(doc, e, tail)
    ensures NextToken(doc, c + 1 + |value|) == Token(if doc[e] == ',' then ArraySeparator else ObjectEnd, e, e + 1)
    ensures e + |tail| == p + |x.ws + (Quote(x.name) + (x.colon + (":" + (value + (x.after + tail)))))|
  {
    hide *;
    t := NameFollows(f, doc, p, x.ws, x.name, x.colon + (":" + (value + (x.after + tail))));
    c := ColonFollows(f, doc, t.end, x.colon, value + (x.after + tail));
    AtSplit(doc, c + 1, value, x.after + tail);
    e := SeparatorFollows(f, doc, c + 1 + |value|, x.after, tail);
  }

  lemma {:induction false} FieldsReads(f: Features, doc: string, p: nat, fields: seq<Field>, ms: seq<Member>,
    name: string)
    requires fields != [] && At(doc, p, RenderFields(fields))
    requires forall i :: 0 <= i < |fields| ==> GoodField(f, fields[i])
    ensures p <= |doc|
    ensures ParseMembers(f, doc, p, ms, name) == Some((FieldsMeaning(f, fields, ms), p + |RenderFields(fields)|))
    decreases fields
  {
    hide *;
    FieldsUnfold(f, doc, p, fields, ms);
    var x, tail := fields[0], FieldsTail(fields);
    FieldIsGood(f, x);
    var value := Render(x.doc);
    var t, c, e := FieldParts(f, doc, p, x, value, tail);
    ValueReads(f, doc, c + 1, x.doc);
    var name' := Text(x.name);
    var ms' := Put(ms, CStr(name'), Meaning(f, x.doc));
    FieldStep(f, doc, p, ms, name, t, name', c, Meaning(f, x.doc), c + 1 + |value|, e);
    if |fields| > 1 {
      AtSplit(doc, e, ",", RenderFields(fields[1..]));
      FieldsReads(f, doc, e + 1, fields[1..], ms', name');
    }
  }

  lemma FieldIsGood(f: Features, x: Field)
    requires GoodField(f, x)
    ensures AllSpace(x.ws) && AllSpace(x.colon) && AllSpace(x.after) && GoodPieces(x.name) && Good(f, x.doc)
  {
  }

  /** The reader accepts every document of RFC 8259, whatever its white space and escapes, and yields
      what it means; so does it with anything after it that does not run on into a final number. */
  lemma DocumentReads(f: Features, d: Doc, tail: string)
    requires Good(f, d) && (tail != "" ==> EndsNumber(tail[0]))
    requires f.strictRoot ==> d.DArr? || d.DObj?
    ensures Parse(f, Render(d) + tail) == Some(Meaning(f, d))
  {
    var doc := Render(d) + tail;
    assert doc[0..0 + |Render(d)|] == Render(d);
    assert tail != "" ==> doc[|Render(d)|] == tail[0];
    ValueReads(f, doc, 0, d);
  }
}
