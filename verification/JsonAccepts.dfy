/** The other direction: what the reader accepts is spelled as a document. And what it does with comments. */
module JsonAccepts {
  import opened Common
  import opened JsonValue
  import opened JsonScan
  import opened JsonNumber
  import opened JsonParse
  import opened JsonDoc
  import opened Placing

  // ---- Accepted documents ---------------------------------------------------

  predicate CommentFree(doc: string)
  {
    forall i :: 0 <= i < |doc| - 1 && doc[i] == '/' ==> doc[i + 1] != '/' && doc[i + 1] != '*'
  }

  predicate NumberText(text: string)
  {
    text != "" && ('0' <= text[0] <= '9' || text[0] == '-') && forall i :: 0 <= i < |text| ==> !EndsNumber(text[i])
  }

  /** A document as the reader takes it: as in RFC 8259, but that a number is whatever the decoder or the
      scanner takes for one, that control characters may stand in strings, and that after a member with an
      empty name a comma may come before the closing brace. */
  predicate Taken(f: Features, d: Doc)
  {
    match d
    case DNull(ws) => AllSpace(ws)
    case DBool(ws, _) => AllSpace(ws)
    case DInt(_, _) => false
    case DReal(ws, text) => AllSpace(ws) && NumberText(text) && NumberValue(f, text).Some?
    case DStr(ws, ps) => AllSpace(ws) && GoodPieces(ps)
    case DArr(ws, items, close) =>
      AllSpace(ws) && AllSpace(close) && forall i :: 0 <= i < |items| ==> TakenItem(f, items[i])
    case DObj(ws, fields, close) =>
      && AllSpace(ws) && AllSpace(close)
      && forall i :: 0 <= i < |fields| ==> TakenField(f, fields[i], i == |fields| - 1)
  }

  predicate TakenItem(f: Features, x: Item)
  {
    Taken(f, x.doc) && AllSpace(x.after)
  }

  predicate TakenField(f: Features, x: Field, last: bool)
  {
    && AllSpace(x.ws) && GoodPieces(x.name) && AllSpace(x.colon) && Taken(f, x.doc)
    && (AllSpace(x.after) || (last && Text(x.name) == "" && OneComma(x.after)))
  }

  predicate OneComma(s: string)
  {
    exists i :: 0 <= i < |s| && s[i] == ',' && AllSpace(s[..i]) && AllSpace(s[i + 1..])
  }

  function TakenMeaning(f: Features, d: Doc): Value
    requires Taken(f, d)
  {
    match d
    case DNull(_) => Null
    case DBool(_, b) => Bool(b)
    case DReal(_, text) => NumberValue(f, text).value
    case DStr(_, ps) => Str(CStr(Text(ps)))
    case DArr(_, items, _) => Arr(ItemsTakenMeaning(f, items))
    case DObj(_, fields, _) => Obj(FieldsTakenMeaning(f, fields, []))
  }

  function ItemsTakenMeaning(f: Features, items: seq<Item>): seq<Value>
    requires forall i :: 0 <= i < |items| ==> TakenItem(f, items[i])
  {
    if items == [] then []
    else
      assert TakenItem(f, items[0]);
      [TakenMeaning(f, items[0].doc)] + ItemsTakenMeaning(f, items[1..])
  }

  predicate TakenFields(f: Features, fields: seq<Field>)
  {
    forall i :: 0 <= i < |fields| ==> TakenField(f, fields[i], i == |fields| - 1)
  }

  function FieldsTakenMeaning(f: Features, fields: seq<Field>, ms: seq<Member>): seq<Member>
    requires TakenFields(f, fields)
  {
    if fields == [] then ms
    else
      assert TakenField(f, fields[0], |fields| == 1);
      FieldsTakenMeaning(f, fields[1..], Put(ms, CStr(Text(fields[0].name)), TakenMeaning(f, fields[0].doc)))
  }

  // ---- Tokens ---------------------------------------------------------------

  lemma {:induction false} SkippedIsSpace(doc: string, p: nat)
    requires p <= |doc|
    ensures AllSpace(doc[p..SkipSpaces(doc, p)])
    decreases |doc| - p
  {
    var q := SkipSpaces(doc, p);
    if q > p {
      SkippedIsSpace(doc, p + 1);
      assert doc[p..q] == [doc[p]] + doc[p + 1..q];
    }
  }

  lemma {:induction false} NumberChars(doc: string, p: nat)
    requires p <= |doc|
    ensures forall i :: p <= i < NumberEnd(doc, p) ==> !EndsNumber(doc[i])
    decreases |doc| - p
  {
    if p < |doc| && IsNumberChar(doc[p]) {
      NumberChars(doc, p + 1);
      Characters(doc[p]);
    }
  }

  /** Without comments the reader's three ways to look for a token are one. */
  lemma OneToken(f: Features, doc: string, p: nat) returns (t: Token, q: nat)
    requires CommentFree(doc) && p <= |doc|
    ensures t == NextToken(doc, p) == NextNonComment(doc, p) == FirstToken(f, doc, p) && t.kind != Comment
    ensures q == t.start && p <= q <= |doc| && t == TokenAt(doc, q) && AllSpace(doc[p..q])
  {
    q := SkipSpaces(doc, p);
    t := TokenAt(doc, q);
    SkippedIsSpace(doc, p);
  }

  /** What each kind of token looks like. */
  lemma TokenLooks(doc: string, q: nat, t: Token)
    requires q <= |doc| && t == TokenAt(doc, q)
    ensures t.kind == ObjectBegin ==> doc[q..t.end] == "{"
    ensures t.kind == ObjectEnd ==> doc[q..t.end] == "}"
    ensures t.kind == ArrayBegin ==> doc[q..t.end] == "["
    ensures t.kind == ArrayEnd ==> doc[q..t.end] == "]"
    ensures t.kind == ArraySeparator ==> doc[q..t.end] == ","
    ensures t.kind == MemberSeparator ==> doc[q..t.end] == ":"
  {
    hide *;
    TokenStarts(doc, q, t);
    if q < |doc| { assert doc[q..q + 1] == [doc[q]]; }
  }

  lemma TokenStarts(doc: string, q: nat, t: Token)
    requires q <= |doc| && t == TokenAt(doc, q)
    ensures t.kind == ObjectBegin ==> q < |doc| && doc[q] == '{' && t.end == q + 1
    ensures t.kind == ObjectEnd ==> q < |doc| && doc[q] == '}' && t.end == q + 1
    ensures t.kind == ArrayBegin ==> q < |doc| && doc[q] == '[' && t.end == q + 1
    ensures t.kind == ArrayEnd ==> q < |doc| && doc[q] == ']' && t.end == q + 1
    ensures t.kind == ArraySeparator ==> q < |doc| && doc[q] == ',' && t.end == q + 1
    ensures t.kind == MemberSeparator ==> q < |doc| && doc[q] == ':' && t.end == q + 1
  {
    hide NumberEnd;
    hide StringEnd;
    hide CommentEnd;
    hide WordAt;
  }

  lemma LeafLooks(doc: string, q: nat, t: Token)
    requires q <= |doc| && t == TokenAt(doc, q)
    ensures t.kind == Number ==> q < t.end == NumberEnd(doc, q + 1) && (IsDigit(doc[q]) || doc[q] == '-')
    ensures t.kind == QuotedString ==> doc[q] == '"' && StringEnd(doc, q + 1) == (true, t.end)
  {
    hide NumberEnd;
    hide StringEnd;
    hide CommentEnd;
    hide WordAt;
  }

  lemma WordLooks(doc: string, q: nat, t: Token)
    requires q <= |doc| && t == TokenAt(doc, q)
    ensures t.kind == NullWord ==> doc[q..t.end] == "null"
    ensures t.kind == TrueWord ==> doc[q..t.end] == "true"
    ensures t.kind == FalseWord ==> doc[q..t.end] == "false"
  {
    hide NumberEnd;
    hide StringEnd;
    hide CommentEnd;
    if q < |doc| && q < t.end { assert doc[q..t.end] == [doc[q]] + doc[q + 1..t.end]; }
  }

  lemma Cut(doc: string, a: nat, b: nat, c: nat)
    requires a <= b <= c <= |doc|
    ensures doc[a..c] == doc[a..b] + doc[b..c]
  {
  }

  // ---- Strings --------------------------------------------------------------

  /** A string whose escapes the reader resolves is spelled by pieces: nothing but the escapes of RFC 8259
      is let through. `a` is where the inside of the token starts. */
  lemma {:induction false} StringTaken(doc: string, a: nat, text: string, i: nat) returns (ps: seq<Piece>)
    requires a + |text| < |doc| && doc[a..a + |text|] == text && i <= |text|
    requires StringEnd(doc, a + i) == (true, a + |text| + 1) && Unescape(text, i).Some?
    ensures GoodPieces(ps) && Spell(ps) == text[i..] && Some(Text(ps)) == Unescape(text, i)
    decreases |text| - i
  {
    hide *;
    if i == |text| {
      ps := [];
      NothingLeft(text);
    } else {
      assert doc[a..a + |text|][i] == doc[a + i];
      var x, next := PieceTaken(doc, a, text, i);
      var rest := StringTaken(doc, a, text, next);
      ps := [x] + rest;
      Cut(text, i, next, |text|);
      OnePieceMore(x, rest);
      Prepended(PieceText(x), Text(rest));
    }
  }

  lemma OnePieceMore(x: Piece, rest: seq<Piece>)
    requires GoodPiece(x) && GoodPieces(rest)
    ensures GoodPieces([x] + rest) && Spell([x] + rest) == SpellPiece(x) + Spell(rest)
    ensures Text([x] + rest) == PieceText(x) + Text(rest)
  {
    hide GoodPiece;
    hide SpellPiece;
    hide PieceText;
    assert ([x] + rest)[1..] == rest;
  }

  lemma NothingLeft(text: string)
    ensures Unescape(text, |text|) == Some("") && Spell([]) == text[|text|..] && Text([]) == "" && GoodPieces([])
  {
  }

  lemma PieceTaken(doc: string, a: nat, text: string, i: nat) returns (x: Piece, next: nat)
    requires a + |text| < |doc| && doc[a..a + |text|] == text && i < |text| && doc[a + i] == text[i]
    requires StringEnd(doc, a + i) == (true, a + |text| + 1) && Unescape(text, i).Some?
    ensures i < next <= |text| && GoodPiece(x) && SpellPiece(x) == text[i..next]
    ensures StringEnd(doc, a + next) == (true, a + |text| + 1) && Unescape(text, next).Some?
    ensures Unescape(text, i) == Prepend(PieceText(x), Unescape(text, next))
  {
    hide *;
    if text[i] != '\\' {
      x, next := Plain(text[i]), i + 1;
      PlainTaken(doc, a, text, i);
    } else {
      UnicodeOrNamed(doc, a, text, i);
      if text[i + 1] == 'u' {
        x, next := EscapeTaken(doc, a, text, i);
      } else {
        x, next := Escape(text[i + 1]), i + 2;
      }
    }
  }

  lemma PlainTaken(doc: string, a: nat, text: string, i: nat)
    requires a + |text| < |doc| && i < |text| && doc[a + i] == text[i] != '\\'
    requires StringEnd(doc, a + i) == (true, a + |text| + 1) && Unescape(text, i).Some?
    ensures GoodPiece(Plain(text[i])) && SpellPiece(Plain(text[i])) == text[i..i + 1]
    ensures StringEnd(doc, a + i + 1) == (true, a + |text| + 1) && Unescape(text, i + 1).Some?
    ensures Unescape(text, i) == Prepend(PieceText(Plain(text[i])), Unescape(text, i + 1))
  {
  }

  lemma UnicodeOrNamed(doc: string, a: nat, text: string, i: nat)
    requires a + |text| < |doc| && i < |text| && doc[a + i] == text[i] == '\\'
    requires StringEnd(doc, a + i) == (true, a + |text| + 1) && Unescape(text, i).Some?
    ensures i + 1 < |text|
    ensures text[i + 1] != 'u' ==>
      && GoodPiece(Escape(text[i + 1])) && SpellPiece(Escape(text[i + 1])) == text[i..i + 2]
      && StringEnd(doc, a + i + 2) == (true, a + |text| + 1) && Unescape(text, i + 2).Some?
      && Unescape(text, i) == Prepend(PieceText(Escape(text[i + 1])), Unescape(text, i + 2))
  {
    hide CodePoint;
    hide Utf8;
    if i + 1 < |text| { Characters(text[i + 1]); }
  }

  lemma EscapeTaken(doc: string, a: nat, text: string, i: nat) returns (x: Piece, next: nat)
    requires a + |text| < |doc| && doc[a..a + |text|] == text && i + 1 < |text| && text[i] == '\\' && text[i + 1] == 'u'
    requires StringEnd(doc, a + i) == (true, a + |text| + 1) && Unescape(text, i).Some?
    ensures i < next <= |text| && GoodPiece(x) && SpellPiece(x) == text[i..next]
    ensures StringEnd(doc, a + next) == (true, a + |text| + 1) && Unescape(text, next).Some?
    ensures Unescape(text, i) == Prepend(PieceText(x), Unescape(text, next))
  {
    hide *;
    UnicodeStep(text, i);
    x, next := CodePointTaken(text, i);
    InnerSlice(doc, a, |text|, i, next);
    PiecePasses(doc, a + i, x);
  }

  lemma InnerSlice(doc: string, a: nat, n: nat, i: nat, j: nat)
    requires a + n <= |doc| && i <= j <= n
    ensures doc[a..a + n][i..j] == doc[a + i..a + j] && At(doc, a + i, doc[a..a + n][i..j])
  {
    var text, part := doc[a..a + n], doc[a + i..a + j];
    forall k | 0 <= k < j - i ensures text[i..j][k] == part[k] { assert text[i + k] == doc[a + i + k]; }
    assert text[i..j] == part;
    assert a + i + |part| == a + j;
  }

  lemma UnicodeStep(text: string, i: nat)
    requires i + 1 < |text| && text[i] == '\\' && text[i + 1] == 'u' && Unescape(text, i).Some?
    ensures CodePoint(text, i + 2).Some?
    ensures var (cp, end) := CodePoint(text, i + 2).value;
      Unescape(text, end).Some? && Unescape(text, i) == Prepend(Utf8(cp), Unescape(text, end))
  {
    hide CodePoint;
    hide Utf8;
  }

  lemma CodePointTaken(text: string, i: nat) returns (x: Piece, next: nat)
    requires i + 1 < |text| && text[i] == '\\' && text[i + 1] == 'u' && CodePoint(text, i + 2).Some?
    ensures i < next <= |text| && next == CodePoint(text, i + 2).value.1
    ensures GoodPiece(x) && SpellPiece(x) == text[i..next] && PieceText(x) == Utf8(CodePoint(text, i + 2).value.0)
  {
    hide Utf8;
    hide Hex;
    hide Hex4;
    hide Combined;
    hide PairOf;
    next := CodePoint(text, i + 2).value.1;
    var h := text[i + 2..i + 6];
    DigitsTaken(text, i + 2);
    EscapeSlice(text, i);
    if 0xD800 <= Hex(h).value <= 0xDBFF {
      DigitsTaken(text, i + 8);
      PairIs(Hex(h).value, Hex(text[i + 8..i + 12]).value);
      x := Pair(h, text[i + 8..i + 12]);
      EscapeSlice(text, i + 6);
      Cut(text, i, i + 6, next);
    } else {
      x := Unicode(h);
    }
  }

  lemma EscapeSlice(text: string, i: nat)
    requires i + 6 <= |text| && text[i] == '\\' && text[i + 1] == 'u'
    ensures text[i..i + 6] == ['\\', 'u'] + text[i + 2..i + 6]
  {
  }

  lemma DigitsTaken(text: string, i: nat)
    requires i + 4 <= |text|
    ensures Hex4(text, i) == Hex(text[i..i + 4])
  {
    hide Hex;
    var h := text[i..i + 4];
    HexMoves(text, i, h, 0, 0);
    HexIs(h);
  }

  lemma StringTokenTaken(doc: string, q: nat, t: Token) returns (ps: seq<Piece>)
    requires q <= |doc| && t == TokenAt(doc, q) && t.kind == QuotedString && StringText(doc, t).Some?
    ensures GoodPieces(ps) && doc[q..t.end] == Quote(ps) && StringText(doc, t) == Some(Text(ps))
  {
    hide TokenAt;
    hide Unescape;
    hide StringEnd;
    hide Spell;
    hide GoodPieces;
    hide Text;
    LeafLooks(doc, q, t);
    var text := doc[q + 1..t.end - 1];
    ClosingQuote(doc, q + 1);
    ps := StringTaken(doc, q + 1, text, 0);
    assert doc[q..t.end] == "\"" + (text + "\"");
    assert text[0..] == text;
  }

  lemma ClosingQuote(doc: string, p: nat)
    requires p <= |doc| && StringEnd(doc, p).0
    ensures p < StringEnd(doc, p).1 <= |doc| && doc[StringEnd(doc, p).1 - 1] == '"'
  {
  }

  // ---- Values ---------------------------------------------------------------

  /** What the reader accepts at `p` is a document, and what it makes of it is what that means. */
  lemma {:induction false} ValueTaken(f: Features, doc: string, p: nat, v: Value, end: nat) returns (d: Doc)
    requires CommentFree(doc) && p <= |doc| && ParseValue(f, doc, p) == Some((v, end))
    ensures p <= end <= |doc| && doc[p..end] == Render(d) && Taken(f, d) && TakenMeaning(f, d) == v
    decreases |doc| - p, 1
  {
    hide *;
    var t, q := OneToken(f, doc, p);
    TokenSpans(doc, q, t);
    var ws := doc[p..q];
    TokenLooks(doc, q, t);
    ValueKinds(f, doc, p, v, end);
    if t.kind == ArrayBegin {
      d := ArrayTaken(f, doc, t.end, v, end, ws);
      Cut(doc, p, q, end);
      Cut(doc, q, t.end, end);
    } else if t.kind == ObjectBegin {
      d := ObjectTaken(f, doc, t.end, v, end, ws);
      Cut(doc, p, q, end);
      Cut(doc, q, t.end, end);
    } else {
      d := LeafTaken(f, doc, p, q, t, v);
    }
  }

  lemma TokenSpans(doc: string, q: nat, t: Token)
    requires q <= |doc| && t == TokenAt(doc, q)
    ensures q == t.start <= t.end <= |doc| && (t.end == q ==> t.kind == EndOfStream)
  {
  }

  /** What an accepted value's first token can be, and what is made of it. */
  lemma ValueKinds(f: Features, doc: string, p: nat, v: Value, end: nat)
    requires p <= |doc| && ParseValue(f, doc, p) == Some((v, end))
    ensures var t := FirstToken(f, doc, p);
      match t.kind
      case ObjectBegin => ParseObject(f, doc, t.end) == Some((v, end)) && p < t.end
      case ArrayBegin => ParseArray(f, doc, t.end) == Some((v, end)) && p < t.end
      case Number => end == t.end && NumberValue(f, doc[t.start..t.end]) == Some(v)
      case QuotedString => end == t.end && StringText(doc, t).Some? && v == Str(CStr(StringText(doc, t).value))
      case TrueWord => end == t.end && v == Bool(true)
      case FalseWord => end == t.end && v == Bool(false)
      case NullWord => end == t.end && v == Null
      case _ => false
  {
    hide FirstToken;
    hide ParseObject;
    hide ParseArray;
    hide NumberValue;
    hide StringText;
    hide CStr;
  }

  lemma LeafTaken(f: Features, doc: string, p: nat, q: nat, t: Token, v: Value) returns (d: Doc)
    requires p <= q <= |doc| && t == TokenAt(doc, q) && AllSpace(doc[p..q]) && q == t.start <= t.end <= |doc|
    requires match t.kind
      case Number => NumberValue(f, doc[t.start..t.end]) == Some(v)
      case QuotedString => StringText(doc, t).Some? && v == Str(CStr(StringText(doc, t).value))
      case TrueWord => v == Bool(true)
      case FalseWord => v == Bool(false)
      case NullWord => v == Null
      case _ => false
    ensures doc[p..t.end] == Render(d) && Taken(f, d) && TakenMeaning(f, d) == v
  {
    hide TokenAt;
    hide NumberValue;
    hide StringText;
    hide CStr;
    hide Spell;
    hide GoodPieces;
    hide Text;
    var ws := doc[p..q];
    assert doc[p..t.end] == ws + doc[q..t.end];
    LeafLooks(doc, q, t);
    WordLooks(doc, q, t);
    match t.kind
    case Number =>
      d := DReal(ws, doc[q..t.end]);
      NumberTaken(doc, q, t);
    case QuotedString =>
      var ps := StringTokenTaken(doc, q, t);
      d := DStr(ws, ps);
    case TrueWord => d := DBool(ws, true);
    case FalseWord => d := DBool(ws, false);
    case NullWord => d := DNull(ws);
  }

  lemma NumberTaken(doc: string, q: nat, t: Token)
    requires q < t.end <= |doc| && t.end == NumberEnd(doc, q + 1) && (IsDigit(doc[q]) || doc[q] == '-')
    ensures NumberText(doc[q..t.end])
  {
    hide NumberEnd;
    hide EndsNumber;
    hide HexDigitOf;
    var text := doc[q..t.end];
    NumberChars(doc, q + 1);
    NumberCharacters(doc[q]);
    forall i | 0 <= i < |text| ensures !EndsNumber(text[i]) { assert text[i] == doc[q + i]; }
  }

  /** A number token is decoded as an integer, or cut to one past the range, only where it is all digits
      behind a sign; any other goes to the floating point scanner, and none is malformed to the decoder. */
  lemma NumberTokens(text: string)
    requires NumberText(text)
    ensures AllDigits(text, From(Negative(text))) ==> !DecodeNumber(text).Bad?
    ensures !AllDigits(text, From(Negative(text))) ==> DecodeNumber(text) == Double
  {
    hide DigitLoop;
    var from := From(Negative(text));
    if AllDigits(text, from) {
      DigitsNotBad(text, from, 0, Negative(text));
    } else {
      var k :| from <= k < |text| && !IsDigit(text[k]);
      NumberCharacters(text[k]);
      assert text[k] in ".eE+" || (text[k] == '-' && k > 0);
    }
  }

  lemma {:induction false} DigitsNotBad(text: string, i: nat, value: nat, negative: bool)
    requires i <= |text| && AllDigits(text, i)
    ensures !DigitLoop(text, i, value, negative).Bad?
    decreases |text| - i
  {
    if i < |text| {
      DigitsNotBad(text, i + 1, (value * 10 + DigitAt(text, i)) % TWO_64, negative);
    }
  }

  lemma {:induction false} ArrayTaken(f: Features, doc: string, p: nat, v: Value, end: nat, ws: string)
    returns (d: Doc)
    requires CommentFree(doc) && p <= |doc| && ParseArray(f, doc, p) == Some((v, end)) && AllSpace(ws)
    ensures p <= end <= |doc| && ws + ("[" + doc[p..end]) == Render(d) && Taken(f, d) && TakenMeaning(f, d) == v
    decreases |doc| - p, 3
  {
    hide *;
    ArrayParts(f, doc, p);
    var q := SkipSpaces(doc, p);
    SkippedIsSpace(doc, p);
    SkipBounds(doc, p);
    if Peek(doc, q) == ']' {
      PeekIs(doc, q);
      d := DArr(ws, [], doc[p..q]);
      assert doc[p..end] == doc[p..q] + "]";
      ArrayIsTaken(f, ws, [], doc[p..q]);
    } else {
      ItemsSkipSpace(f, doc, p);
      var items := ItemsTaken(f, doc, p, v.items, end);
      d := DArr(ws, items, "");
      ArrayIsTaken(f, ws, items, "");
    }
  }

  lemma SkipBounds(doc: string, p: nat)
    requires p <= |doc|
    ensures p <= SkipSpaces(doc, p) <= |doc| && AllSpace("")
  {
  }

  lemma PeekIs(doc: string, q: nat)
    requires q <= |doc| && Peek(doc, q) == ']'
    ensures q < |doc| && doc[q] == ']'
  {
  }

  lemma ArrayIsTaken(f: Features, ws: string, items: seq<Item>, close: string)
    requires AllSpace(ws) && AllSpace(close) && forall i :: 0 <= i < |items| ==> TakenItem(f, items[i])
    ensures var d := DArr(ws, items, close);
      && Taken(f, d) && TakenMeaning(f, d) == Arr(ItemsTakenMeaning(f, items))
      && Render(d) == ws + ("[" + (if items == [] then close + "]" else RenderItems(items)))
      && (items == [] ==> ItemsTakenMeaning(f, items) == [])
  {
  }

  lemma {:induction false} ItemsTaken(f: Features, doc: string, p: nat, values: seq<Value>, end: nat)
    returns (items: seq<Item>)
    requires CommentFree(doc) && p <= |doc| && ParseItems(f, doc, p) == Some((values, end))
    ensures p <= end <= |doc| && items != [] && doc[p..end] == RenderItems(items)
    ensures (forall i :: 0 <= i < |items| ==> TakenItem(f, items[i])) && ItemsTakenMeaning(f, items) == values
    decreases |doc| - p, 2
  {
    hide *;
    ItemsTurn(f, doc, p);
    var v, e := ParseValue(f, doc, p).value.0, ParseValue(f, doc, p).value.1;
    ValueBounds(f, doc, p);
    var d := ValueTaken(f, doc, p, v, e);
    var t, q := OneToken(f, doc, e);
    TokenSpans(doc, q, t);
    TokenLooks(doc, q, t);
    var x := Item(d, doc[e..q]);
    ItemIsTaken(f, x);
    if t.kind == ArrayEnd {
      items := [x];
      Cut(doc, p, e, end);
      Cut(doc, e, q, end);
      ItemsAreTaken(f, x, []);
    } else {
      AfterEnds([v], ParseItems(f, doc, t.end));
      var more, last := ParseItems(f, doc, t.end).value.0, ParseItems(f, doc, t.end).value.1;
      var rest := ItemsTaken(f, doc, t.end, more, last);
      items := [x] + rest;
      Cut(doc, p, e, end);
      Cut(doc, e, q, end);
      Cut(doc, q, t.end, end);
      ItemsAreTaken(f, x, rest);
    }
  }

  lemma ValueBounds(f: Features, doc: string, p: nat)
    requires p <= |doc| && ParseValue(f, doc, p).Some?
    ensures p < ParseValue(f, doc, p).value.1 <= |doc|
  {
  }

  lemma ItemIsTaken(f: Features, x: Item)
    requires Taken(f, x.doc) && AllSpace(x.after)
    ensures TakenItem(f, x)
  {
  }

  lemma ItemsAreTaken(f: Features, x: Item, rest: seq<Item>)
    requires TakenItem(f, x) && forall i :: 0 <= i < |rest| ==> TakenItem(f, rest[i])
    ensures forall i :: 0 <= i < |[x] + rest| ==> TakenItem(f, ([x] + rest)[i])
    ensures Taken(f, x.doc)
    ensures ItemsTakenMeaning(f, [x] + rest) == [TakenMeaning(f, x.doc)] + ItemsTakenMeaning(f, rest)
    ensures RenderItems([x] + rest) ==
      Render(x.doc) + (x.after + (if rest == [] then "]" else "," + RenderItems(rest)))
    ensures rest == [] ==> ItemsTakenMeaning(f, rest) == []
    ensures rest == [] ==> [x] + rest == [x]
  {
    hide Render;
    assert ([x] + rest)[1..] == rest;
  }

  lemma {:induction false} ObjectTaken(f: Features, doc: string, p: nat, v: Value, end: nat, ws: string)
    returns (d: Doc)
    requires CommentFree(doc) && p <= |doc| && ParseObject(f, doc, p) == Some((v, end)) && AllSpace(ws)
    ensures p <= end <= |doc| && ws + ("{" + doc[p..end]) == Render(d) && Taken(f, d) && TakenMeaning(f, d) == v
    decreases |doc| - p, 3
  {
    hide *;
    ObjectIs(f, doc, p, v, end);
    var fields, close := MembersTaken(f, doc, p, [], "", v.members, end);
    d := DObj(ws, fields, close);
    ObjectIsTaken(f, ws, fields, close);
  }

  lemma ObjectIs(f: Features, doc: string, p: nat, v: Value, end: nat)
    requires p <= |doc| && ParseObject(f, doc, p) == Some((v, end))
    ensures v.Obj? && ParseMembers(f, doc, p, [], "") == Some((v.members, end))
  {
    hide ParseMembers;
  }

  lemma ObjectIsTaken(f: Features, ws: string, fields: seq<Field>, close: string)
    requires AllSpace(ws) && AllSpace(close) && TakenFields(f, fields)
    ensures var d := DObj(ws, fields, close);
      && Taken(f, d) && TakenMeaning(f, d) == Obj(FieldsTakenMeaning(f, fields, []))
      && Render(d) == ws + ("{" + (if fields == [] then close + "}" else RenderFields(fields)))
      && (fields == [] ==> FieldsTakenMeaning(f, fields, []) == [])
  {
  }

  /** A member's name, colon and value, up to its separator `s`. */
  lemma {:induction false} FieldTaken(f: Features, doc: string, p: nat, t: Token, q: nat, s: Token)
    returns (x: Field, sq: nat)
    requires CommentFree(doc) && p <= q <= |doc| && t == TokenAt(doc, q) && t.kind == QuotedString && p < t.end <= |doc|
    requires AllSpace(doc[p..q]) && q == t.start && t.start + 2 <= t.end
    requires ParseMember(f, doc, t).Some? && s == NextToken(doc, ParseMember(f, doc, t).value.2)
    ensures var (name, v, e) := ParseMember(f, doc, t).value;
      && e <= sq <= s.end <= |doc| && s == TokenAt(doc, sq) && s.start == sq && (s.end == sq ==> s.kind == EndOfStream)
      && p < s.end && p <= sq && doc[p..sq] == Front(x) && AllSpace(x.after) && TakenField(f, x, false)
      && GoodPieces(x.name) && Taken(f, x.doc) && name == Text(x.name) && v == TakenMeaning(f, x.doc)
    decreases |doc| - p, 1
  {
    hide *;
    MemberIs(f, doc, t);
    var v, e := ParseMember(f, doc, t).value.1, ParseMember(f, doc, t).value.2;
    var ps := StringTokenTaken(doc, q, t);
    var c, cq := OneToken(f, doc, t.end);
    TokenLooks(doc, cq, c);
    var d := ValueTaken(f, doc, c.end, v, e);
    var again;
    again, sq := OneToken(f, doc, e);
    TokenSpans(doc, sq, s);
    x := Field(doc[p..q], ps, doc[t.end..cq], d, doc[e..sq]);
    TextOf(doc, p, q, t.end, cq, c.end, e, sq, x);
    FieldIsTaken(f, x);
  }

  lemma FieldIsTaken(f: Features, x: Field)
    requires AllSpace(x.ws) && GoodPieces(x.name) && AllSpace(x.colon) && Taken(f, x.doc) && AllSpace(x.after)
    ensures TakenField(f, x, false) && TakenField(f, x, true)
  {
  }

  /** The members up to the closing brace: none, which only a name still empty lets through, or fields. */
  lemma {:induction false} MembersTaken(f: Features, doc: string, p: nat, ms: seq<Member>, name: string,
    ms': seq<Member>, end: nat)
    returns (fields: seq<Field>, close: string)
    requires CommentFree(doc) && p <= |doc| && ParseMembers(f, doc, p, ms, name) == Some((ms', end))
    ensures p <= end <= |doc| && AllSpace(close) && TakenFields(f, fields)
    ensures fields == [] ==> name == "" && ms' == ms && doc[p..end] == close + "}"
    ensures fields != [] ==> close == "" && doc[p..end] == RenderFields(fields)
    ensures fields != [] ==> FieldsTakenMeaning(f, fields, ms) == ms'
    decreases |doc| - p, 2
  {
    hide *;
    var t, q := OneToken(f, doc, p);
    TokenSpans(doc, q, t);
    TokenLooks(doc, q, t);
    MembersTurn(f, doc, p, ms, name);
    SkipBounds(doc, p);
    if t.kind == ObjectEnd && name == "" {
      fields, close := [], doc[p..q];
      Cut(doc, p, q, end);
      NoFields(f);
    } else {
      QuotedSpans(doc, q, t);
      var name', v, e := ParseMember(f, doc, t).value.0, ParseMember(f, doc, t).value.1, ParseMember(f, doc, t).value.2;
      SeparatorIs(doc, e);
      var s := NextToken(doc, e);
      var x, sq := FieldTaken(f, doc, p, t, q, s);
      TokenLooks(doc, sq, s);
      var ms1 := Put(ms, CStr(name'), v);
      close := "";
      if s.kind == ObjectEnd {
        fields := [x];
        Cut(doc, p, sq, end);
        LastField(f, x, ms);
      } else {
        var rest, gap := MembersTaken(f, doc, s.end, ms1, name', ms', end);
        Cut(doc, p, sq, end);
        Cut(doc, sq, s.end, end);
        fields := OneMoreField(f, x, rest, gap, ms);
      }
    }
  }

  lemma LastField(f: Features, x: Field, ms: seq<Member>)
    requires TakenField(f, x, false) && AllSpace(x.after)
    ensures TakenFields(f, [x]) && RenderFields([x]) == Front(x) + "}" && GoodPieces(x.name) && Taken(f, x.doc)
    ensures FieldsTakenMeaning(f, [x], ms) == Put(ms, CStr(Text(x.name)), TakenMeaning(f, x.doc))
  {
    hide *;
    NoFields(f);
    FieldParted(f, x);
    FieldIsTaken(f, x);
    FieldsAreTaken(f, x, [], ms, "}");
  }

  lemma FieldParted(f: Features, x: Field)
    requires TakenField(f, x, false)
    ensures AllSpace(x.ws) && GoodPieces(x.name) && AllSpace(x.colon) && Taken(f, x.doc) && AllSpace(x.after)
  {
  }

  /** A field, a comma and what comes then: more fields, or, after an empty name, the brace. */
  lemma OneMoreField(f: Features, x: Field, rest: seq<Field>, gap: string, ms: seq<Member>)
    returns (fields: seq<Field>)
    requires TakenField(f, x, false) && TakenFields(f, rest) && AllSpace(gap)
    requires rest == [] ==> GoodPieces(x.name) && Text(x.name) == ""
    ensures fields != [] && TakenFields(f, fields) && GoodPieces(x.name) && Taken(f, x.doc)
    ensures RenderFields(fields) == Front(x) + ("," + (if rest == [] then gap + "}" else RenderFields(rest)))
    ensures var ms1 := Put(ms, CStr(Text(x.name)), TakenMeaning(f, x.doc));
      FieldsTakenMeaning(f, fields, ms) == if rest == [] then ms1 else FieldsTakenMeaning(f, rest, ms1)
  {
    hide *;
    FieldParted(f, x);
    if rest == [] {
      var y := x.(after := x.after + ("," + gap));
      CommaIsTaken(x, gap);
      CommaFieldIsTaken(f, y);
      fields := [y];
      FieldsAreTaken(f, y, [], ms, "}");
      FrontGrows(x, gap);
    } else {
      fields := [x] + rest;
      FieldsAreTaken(f, x, rest, ms, "," + RenderFields(rest));
    }
  }

  lemma CommaFieldIsTaken(f: Features, x: Field)
    requires AllSpace(x.ws) && GoodPieces(x.name) && AllSpace(x.colon) && Taken(f, x.doc) && OneComma(x.after)
    requires Text(x.name) == ""
    ensures TakenField(f, x, true)
  {
  }

  lemma NoFields(f: Features)
    ensures TakenFields(f, [])
  {
  }

  lemma QuotedSpans(doc: string, q: nat, t: Token)
    requires q <= |doc| && t == TokenAt(doc, q) && t.kind == QuotedString
    ensures t.start + 2 <= t.end <= |doc|
  {
  }

  lemma MemberIs(f: Features, doc: string, t: Token)
    requires t.start + 2 <= t.end <= |doc| && ParseMember(f, doc, t).Some?
    ensures var (name, v, e) := ParseMember(f, doc, t).value;
      var colon := NextToken(doc, t.end);
      && StringText(doc, t) == Some(name) && colon.kind == MemberSeparator && t.end < colon.end <= |doc|
      && colon.end < e <= |doc| && ParseValue(f, doc, colon.end) == Some((v, e))
  {
    hide StringText;
  }

  lemma SeparatorIs(doc: string, e: nat)
    requires CommentFree(doc) && e <= |doc|
    ensures var s := NextToken(doc, e);
      Separator(doc, e) == if s.kind == ObjectEnd || s.kind == ArraySeparator then Some(s) else None
  {
  }

  /** A field up to its separator. */
  function Front(x: Field): string
  {
    x.ws + (Quote(x.name) + (x.colon + (":" + (Render(x.doc) + x.after))))
  }

  lemma TextOf(doc: string, p: nat, q: nat, n: nat, c: nat, v: nat, e: nat, a: nat, x: Field)
    requires p <= q <= n <= c <= v <= e <= a <= |doc|
    requires x.ws == doc[p..q] && Quote(x.name) == doc[q..n] && x.colon == doc[n..c] && doc[c..v] == ":"
    requires Render(x.doc) == doc[v..e] && x.after == doc[e..a]
    ensures doc[p..a] == Front(x)
  {
    hide *;
    FrontIs(x);
    Cut(doc, v, e, a);
    Cut(doc, c, v, a);
    Cut(doc, n, c, a);
    Cut(doc, q, n, a);
    Cut(doc, p, q, a);
  }

  lemma FrontIs(x: Field)
    ensures Front(x) == x.ws + (Quote(x.name) + (x.colon + (":" + (Render(x.doc) + x.after))))
  {
    hide Render;
  }

  lemma FrontGrows(x: Field, gap: string)
    ensures Front(x.(after := x.after + ("," + gap))) + "}" == Front(x) + ("," + (gap + "}"))
  {
    hide *;
    var y := x.(after := x.after + ("," + gap));
    FrontIs(x);
    FrontIs(y);
    Tucked(x.ws, Quote(x.name), x.colon, Render(x.doc), x.after, "," + gap, "}");
    assert ("," + gap) + "}" == "," + (gap + "}");
  }

  lemma Tucked(a: string, b: string, c: string, d: string, e: string, g: string, h: string)
    ensures a + (b + (c + (":" + (d + (e + g))))) + h == a + (b + (c + (":" + (d + e)))) + (g + h)
    ensures a + (b + (c + (":" + (d + e)))) + g == a + (b + (c + (":" + (d + (e + g)))))
  {
  }

  lemma CommaIsTaken(x: Field, gap: string)
    requires AllSpace(x.after) && AllSpace(gap)
    ensures OneComma(x.after + ("," + gap))
  {
    var s, i := x.after + ("," + gap), |x.after|;
    assert s[i] == ',' && s[..i] == x.after && s[i + 1..] == gap;
  }

  /** A field and the ones after it. */
  lemma FieldsAreTaken(f: Features, x: Field, rest: seq<Field>, ms: seq<Member>, tail: string)
    requires TakenFields(f, rest) && TakenField(f, x, rest == [])
    requires tail == if rest == [] then "}" else "," + RenderFields(rest)
    ensures TakenFields(f, [x] + rest) && RenderFields([x] + rest) == Front(x) + tail
    ensures GoodPieces(x.name) && Taken(f, x.doc)
    ensures var ms1 := Put(ms, CStr(Text(x.name)), TakenMeaning(f, x.doc));
      FieldsTakenMeaning(f, [x] + rest, ms) == if rest == [] then ms1 else FieldsTakenMeaning(f, rest, ms1)
    ensures rest == [] ==> [x] + rest == [x]
  {
    hide Render;
    hide Quote;
    hide Put;
    hide CStr;
    hide Text;
    var all := [x] + rest;
    assert all[1..] == rest;
    forall i | 0 <= i < |all| ensures TakenField(f, all[i], i == |all| - 1) {
      if i > 0 { assert all[i] == rest[i - 1]; }
    }
    Tucked(x.ws, Quote(x.name), x.colon, Render(x.doc), x.after, tail, "");
  }

  /** The reader takes nothing but documents: of a text without comments, what it accepts is a document
      and perhaps something behind it, and the value is what that document means; in strict mode the
      document is an array or an object. */
  lemma AcceptedIsDocument(f: Features, doc: string, v: Value) returns (d: Doc, tail: string)
    requires CommentFree(doc) && Parse(f, doc) == Some(v)
    ensures doc == Render(d) + tail && Taken(f, d) && TakenMeaning(f, d) == v
    ensures f.strictRoot ==> d.DArr? || d.DObj?
  {
    hide *;
    RootIs(f, doc, v);
    var end := ParseValue(f, doc, 0).value.1;
    d := ValueTaken(f, doc, 0, v, end);
    tail := doc[end..];
    Cut(doc, 0, end, |doc|);
    ShapeTaken(f, d);
  }

  lemma RootIs(f: Features, doc: string, v: Value)
    requires Parse(f, doc) == Some(v)
    ensures ParseValue(f, doc, 0).Some? && ParseValue(f, doc, 0).value.0 == v && (f.strictRoot ==> v.Arr? || v.Obj?)
  {
    hide ParseValue;
  }

  lemma ShapeTaken(f: Features, d: Doc)
    requires Taken(f, d)
    ensures (TakenMeaning(f, d).Arr? ==> d.DArr?) && (TakenMeaning(f, d).Obj? ==> d.DObj?)
  {
    hide NumberValue;
    if d.DReal? { NumbersAreFlat(f, d.text); }
  }

  lemma NumbersAreFlat(f: Features, text: string)
    requires NumberValue(f, text).Some?
    ensures !NumberValue(f, text).value.Arr? && !NumberValue(f, text).value.Obj?
  {
    hide DecodeNumber;
  }

  // ---- Comments -------------------------------------------------------------

  /** A comment: a block, or a line with the character that ends it. */
  datatype Remark = Block(text: string) | Line(text: string, end: char)

  /** A comment and the white space before it. */
  datatype Aside = Aside(ws: string, remark: Remark)

  predicate GoodRemark(r: Remark)
  {
    match r
    case Block(text) => forall i :: 0 <= i < |text| - 1 && text[i] == '*' ==> text[i + 1] != '/'
    case Line(text, end) => (end == '\n' || end == '\r') && '\n' !in text && '\r' !in text
  }

  function SpellRemark(r: Remark): string
  {
    match r
    case Block(text) => "/*" + (text + "*/")
    case Line(text, end) => "//" + (text + [end])
  }

  predicate GoodAsides(g: seq<Aside>)
  {
    forall i :: 0 <= i < |g| ==> AllSpace(g[i].ws) && GoodRemark(g[i].remark)
  }

  function SpellAsides(g: seq<Aside>): string
  {
    if g == [] then "" else g[0].ws + (SpellRemark(g[0].remark) + SpellAsides(g[1..]))
  }

  lemma {:induction false} BlockEnds(doc: string, p: nat, text: string, i: nat)
    requires At(doc, p, text + "*/") && i <= |text| && GoodRemark(Block(text))
    ensures CCommentEnd(doc, p + i) == (true, p + |text| + 2)
    decreases |text| - i
  {
    var s := text + "*/";
    AtChar(doc, p, s, i);
    AtChar(doc, p, s, i + 1);
    if i < |text| {
      assert s[i] == text[i] && (i + 1 < |text| ==> s[i + 1] == text[i + 1]) && (i + 1 == |text| ==> s[i + 1] == '*');
      BlockEnds(doc, p, text, i + 1);
    }
  }

  lemma {:induction false} LineEnds(doc: string, p: nat, text: string, end: char, i: nat)
    requires At(doc, p, text + [end]) && i <= |text| && GoodRemark(Line(text, end))
    ensures CppCommentEnd(doc, p + i) == p + |text| + 1
    decreases |text| - i
  {
    var s := text + [end];
    AtChar(doc, p, s, i);
    if i < |text| {
      assert s[i] == text[i] && text[i] in text;
      LineEnds(doc, p, text, end, i + 1);
    } else {
      assert s[i] == end;
    }
  }

  lemma RemarkReads(doc: string, q: nat, r: Remark)
    requires At(doc, q, SpellRemark(r)) && GoodRemark(r)
    ensures TokenAt(doc, q) == Token(Comment, q, q + |SpellRemark(r)|)
  {
    var s := SpellRemark(r);
    AtChar(doc, q, s, 0);
    AtChar(doc, q, s, 1);
    AtSplit(doc, q, s[..2], s[2..]);
    assert s[2..] == if r.Block? then r.text + "*/" else r.text + [r.end];
    if r.Block? { BlockEnds(doc, q + 2, r.text, 0); } else { LineEnds(doc, q + 2, r.text, r.end, 0); }
  }

  lemma AsideReads(doc: string, p: nat, x: Aside, rest: string) returns (end: nat)
    requires At(doc, p, x.ws + (SpellRemark(x.remark) + rest)) && AllSpace(x.ws) && GoodRemark(x.remark)
    ensures end == p + |x.ws| + |SpellRemark(x.remark)| <= |doc| && At(doc, end, rest)
    ensures NextToken(doc, p) == Token(Comment, p + |x.ws|, end)
  {
    hide *;
    var q := p + |x.ws|;
    end := q + |SpellRemark(x.remark)|;
    AtSplit(doc, p, x.ws, SpellRemark(x.remark) + rest);
    AtSplit(doc, q, SpellRemark(x.remark), rest);
    AtSlice(doc, end, rest);
    RemarkStarts(doc, q, x.remark);
    SkipsSpace(doc, p, x.ws);
    RemarkReads(doc, q, x.remark);
    TokenBehindSpace(doc, p, q);
  }

  lemma RemarkStarts(doc: string, q: nat, r: Remark)
    requires At(doc, q, SpellRemark(r))
    ensures q < |doc| && !IsSpace(doc[q])
  {
    AtChar(doc, q, SpellRemark(r), 0);
  }

  lemma TokenBehindSpace(doc: string, p: nat, q: nat)
    requires p <= q <= |doc| && SkipSpaces(doc, p) == q
    ensures NextToken(doc, p) == TokenAt(doc, q)
  {
    hide TokenAt;
  }

  lemma CommentTurn(doc: string, p: nat)
    requires p <= |doc| && NextToken(doc, p).kind == Comment
    ensures NextNonComment(doc, p) == NextNonComment(doc, NextToken(doc, p).end)
  {
    hide NextToken;
  }

  lemma AsidesUnfold(g: seq<Aside>)
    requires GoodAsides(g)
    ensures g == [] ==> SpellAsides(g) == ""
    ensures g != [] ==>
      && AllSpace(g[0].ws) && GoodRemark(g[0].remark) && GoodAsides(g[1..])
      && SpellAsides(g) == g[0].ws + (SpellRemark(g[0].remark) + SpellAsides(g[1..]))
  {
    hide SpellRemark;
    hide GoodRemark;
    hide AllSpace;
  }

  /** Comments, with white space before them, are skipped whole: a block comment up to the first closing
      mark, a line comment up to the end of its line. */
  lemma {:induction false} AsidesSkipped(doc: string, p: nat, g: seq<Aside>)
    requires At(doc, p, SpellAsides(g)) && GoodAsides(g)
    ensures p + |SpellAsides(g)| <= |doc| && NextNonComment(doc, p) == NextNonComment(doc, p + |SpellAsides(g)|)
    ensures g != [] ==> NextToken(doc, p).kind == Comment && NextToken(doc, p).end <= |doc|
    ensures g != [] ==> NextNonComment(doc, NextToken(doc, p).end) == NextNonComment(doc, p + |SpellAsides(g)|)
    decreases |g|
  {
    hide *;
    AsidesUnfold(g);
    AtSlice(doc, p, SpellAsides(g));
    if g != [] {
      var end := AsideReads(doc, p, g[0], SpellAsides(g[1..]));
      CommentTurn(doc, p);
      AsidesSkipped(doc, end, g[1..]);
    }
  }

  /** Where comments are allowed, a document with comments before it is read as the document; where they
      are not, it is refused. */
  lemma CommentsBefore(f: Features, g: seq<Aside>, d: Doc, tail: string)
    requires GoodAsides(g) && g != [] && Good(f, d) && (tail != "" ==> EndsNumber(tail[0]))
    requires f.strictRoot ==> d.DArr? || d.DObj?
    ensures Parse(f, SpellAsides(g) + (Render(d) + tail)) == if f.allowComments then Some(Meaning(f, d)) else None
  {
    hide SpellAsides;
    hide Render;
    hide Meaning;
    hide Good;
    hide GoodAsides;
    hide NextToken;
    hide NextNonComment;
    var s := SpellAsides(g);
    var doc := s + (Render(d) + tail);
    assert doc[0..0 + |s|] == s;
    AsidesSkipped(doc, 0, g);
    if f.allowComments {
      assert doc[|s|..|s| + |Render(d)|] == Render(d);
      assert tail != "" ==> doc[|s| + |Render(d)|] == tail[0];
      ValueReads(f, doc, |s|, d);
      SameValue(f, doc, 0, |s|);
      MeaningShape(f, d);
    } else {
      CommentRefused(f, doc);
    }
  }

  lemma SameValue(f: Features, doc: string, p: nat, q: nat)
    requires f.allowComments && p <= |doc| && q <= |doc| && NextNonComment(doc, p) == NextNonComment(doc, q)
    ensures ParseValue(f, doc, p) == ParseValue(f, doc, q)
  {
    hide NextNonComment;
  }

  lemma CommentRefused(f: Features, doc: string)
    requires !f.allowComments && NextToken(doc, 0).kind == Comment
    ensures Parse(f, doc) == None
  {
    hide NextToken;
  }

  lemma MeaningShape(f: Features, d: Doc)
    requires Good(f, d)
    ensures (Meaning(f, d).Arr? <==> d.DArr?) && (Meaning(f, d).Obj? <==> d.DObj?)
  {
  }

  /** After an element, comments are skipped whether they are allowed or not. */
  lemma CommentsAfterElement(f: Features, doc: string, p: nat, v: Value, q: nat, g: seq<Aside>)
    requires p <= |doc| && ParseValue(f, doc, p) == Some((v, q)) && At(doc, q, SpellAsides(g)) && GoodAsides(g)
    ensures q + |SpellAsides(g)| <= |doc|
    ensures var t := NextNonComment(doc, q + |SpellAsides(g)|);
      ParseItems(f, doc, p) ==
        if t.kind == ArrayEnd then Some(([v], t.end))
        else if t.kind == ArraySeparator then After([v], ParseItems(f, doc, t.end))
        else None
  {
    hide ParseItems;
    AsidesSkipped(doc, q, g);
    ItemsTurn(f, doc, p);
  }

  /** After a member, a comment hides what is missing: whatever token comes behind it stands for the comma. */
  lemma AnythingAfterComment(doc: string, q: nat, g: seq<Aside>)
    requires g != [] && At(doc, q, SpellAsides(g)) && GoodAsides(g)
    ensures q + |SpellAsides(g)| <= |doc| && Separator(doc, q) == Some(NextNonComment(doc, q + |SpellAsides(g)|))
  {
    hide NextToken;
    hide NextNonComment;
    AsidesSkipped(doc, q, g);
  }
}
