/** How single values are spelled by the writers: integers through a fixed buffer, strings with escapes. */
module JsonText {
  import opened Common
  import opened JsonValue
  import opened JsonScan
  import opened JsonDoc

  // ---- Integers -----------------------------------------------------------

  /** uintToStringBufferSize: three characters a byte of a 64-bit integer, and a NUL. */
  const BUFFER_SIZE := 3 * 8 + 1

  /** Writes the number backwards from `current`, NUL first. */
  method UIntToString(value: nat, buffer: array<char>, current: nat) returns (next: nat)
    requires value < TWO_64 && BUFFER_SIZE <= current <= buffer.Length
    modifies buffer
    ensures current - 21 <= next <= current - 2
    ensures buffer[next..current] == Decimal(value) + ['\0']
    ensures forall i :: 0 <= i < buffer.Length && !(next <= i < current) ==> buffer[i] == old(buffer[i])
  {
    DecimalLength(value, 20) by { PowersOfTen(); }
    next := current - 1;
    buffer[next] := '\0';
    var rest := value;
    var first := true;
    while first || rest != 0
      invariant current - 1 - |Decimal(value)| <= next <= current - 1
      invariant first ==> rest == value && buffer[next..current] == ['\0']
      invariant !first ==> rest == 0 || current - 1 - next + |Decimal(rest)| == |Decimal(value)|
      invariant !first ==> Decimal(value) + ['\0'] == (if rest == 0 then [] else Decimal(rest)) + buffer[next..current]
      invariant !first ==> next < current - 1
      invariant forall i :: 0 <= i < buffer.Length && !(next <= i < current) ==> buffer[i] == old(buffer[i])
      decreases first, rest
    {
      ghost var tail := buffer[next..current];
      next := next - 1;
      buffer[next] := Digit(rest % 10);
      assert buffer[next..current] == [Digit(rest % 10)] + tail;
      rest := rest / 10;
      first := false;
    }
  }

  lemma PowersOfTen()
    ensures Pow10(20) == 100000000000000000000
  {
    assert Pow10(5) == 100000;
    assert Pow10(10) == 10000000000;
    assert Pow10(15) == 1000000000000000;
  }

  lemma SameFront(a: string, b: string, last: char, whole: string)
    requires whole == a + [last] == b + ['\0']
    ensures a == b
  {
    assert a == whole[..|whole| - 1] == b;
  }

  /** A signed 64-bit number; its magnitude goes through the unsigned routine, the least number's by wrap-around. */
  method SignedToString(value: int) returns (text: string)
    requires MIN_INT64 <= value < TWO_63
    ensures text == IntText(value)
  {
    hide Decimal;
    var buffer := new char[BUFFER_SIZE];
    var isNegative := value < 0;
    var magnitude := value;
    if isNegative { magnitude := if value == MIN_INT64 then MIN_INT64 else -value; }
    var current := UIntToString(magnitude % TWO_64, buffer, BUFFER_SIZE);
    text := buffer[current..BUFFER_SIZE - 1];
    SameFront(text, Decimal(magnitude % TWO_64), buffer[BUFFER_SIZE - 1], buffer[current..BUFFER_SIZE]);
    if isNegative {
      current := current - 1;
      buffer[current] := '-';
      assert buffer[current..BUFFER_SIZE - 1] == ['-'] + text;
      text := buffer[current..BUFFER_SIZE - 1];
    }
  }

  method UnsignedToString(value: nat) returns (text: string)
    requires value < TWO_64
    ensures text == IntText(value)
  {
    var buffer := new char[BUFFER_SIZE];
    var current := UIntToString(value, buffer, BUFFER_SIZE);
    text := buffer[current..BUFFER_SIZE - 1];
    SameFront(text, Decimal(value), buffer[BUFFER_SIZE - 1], buffer[current..BUFFER_SIZE]);
  }

  // ---- Strings ------------------------------------------------------------

  predicate IsControl(c: char) { '\0' < c <= 31 as char }

  function HexDigit(d: nat): char
    requires d < 16
  {
    if d < 10 then '0' + d as char else 'A' + (d - 10) as char
  }

  /** How the writers spell one character. */
  function PieceFor(c: char): Piece
  {
    match c
    case '"' => Escape('"') case '\\' => Escape('\\') case '\n' => Escape('n')
    case '\r' => Escape('r') case '\t' => Escape('t')
    case _ =>
      if c as int == 8 then Escape('b')
      else if c as int == 12 then Escape('f')
      else if IsControl(c) then Unicode(['0', '0', HexDigit(c as int / 16), HexDigit(c as int % 16)])
      else Plain(c)
  }

  function Pieces(s: string): seq<Piece>
  {
    if s == [] then [] else [PieceFor(s[0])] + Pieces(s[1..])
  }

  lemma HexDigitReads(d: nat)
    requires d < 16
    ensures HexDigitOf(HexDigit(d)) == Some(d)
  {
  }

  lemma ControlHex(n: nat)
    requires n < 32
    ensures Hex(['0', '0', HexDigit(n / 16), HexDigit(n % 16)]) == Some(n)
  {
    hide HexDigit;
    HexDigitReads(n / 16);
    HexDigitReads(n % 16);
  }

  lemma PieceForMeans(c: char)
    requires c != '\0'
    ensures GoodPiece(PieceFor(c)) && PieceText(PieceFor(c)) == [c]
  {
    if IsControl(c) { ControlHex(c as int); }
  }

  /** Quoting loses nothing: the spelled pieces of a NUL-free string mean that string. */
  lemma {:induction false} PiecesMean(s: string)
    requires '\0' !in s
    ensures GoodPieces(Pieces(s)) && Text(Pieces(s)) == s
  {
    if s != [] {
      PieceForMeans(s[0]);
      PiecesMean(s[1..]);
      assert s == [s[0]] + s[1..];
    }
  }

  /** Quoting leaves no control character in the text: what section 7 of RFC 8259 wants escaped is. */
  lemma {:induction false} NoControlIsSpelled(s: string)
    requires '\0' !in s
    ensures forall c :: c in Spell(Pieces(s)) ==> c >= ' '
  {
    if s != [] {
      NoControlIsSpelled(s[1..]);
      OnePieceIsVisible(s[0]);
    }
  }

  lemma OnePieceIsVisible(c: char)
    requires c != '\0'
    ensures forall x :: x in SpellPiece(PieceFor(c)) ==> x >= ' '
  {
    if IsControl(c) {
      HexDigitReads(c as int / 16);
      HexDigitReads(c as int % 16);
    }
  }

  /** Characters that need no escape are spelled as they are. */
  lemma {:induction false} PlainPieces(s: string)
    requires forall c :: c in s ==> c !in ['"', '\\', 8 as char, 12 as char, '\n', '\r', '\t'] && !IsControl(c)
    ensures Spell(Pieces(s)) == s
  {
    if s != [] {
      assert s[0] in s;
      PlainPiece(s[0]);
      forall c | c in s[1..] ensures c in s {}
      PlainPieces(s[1..]);
      assert s == [s[0]] + s[1..];
      assert Spell(Pieces(s)) == [s[0]] + Spell(Pieces(s[1..]));
    }
  }

  lemma PlainPiece(c: char)
    requires c !in ['"', '\\', 8 as char, 12 as char, '\n', '\r', '\t'] && !IsControl(c)
    ensures PieceFor(c) == Plain(c)
  {
  }

  method ContainsControlCharacter(s: string) returns (found: bool)
    ensures found <==> exists c :: c in s && IsControl(c)
  {
    for i := 0 to |s|
      invariant forall j :: 0 <= j < i ==> !IsControl(s[j])
    {
      if IsControl(s[i]) { return true; }
    }
    found := false;
  }

  method EscapeCharacter(c: char) returns (text: string)
    ensures text == SpellPiece(PieceFor(c))
  {
    match c {
      case '"' => text := "\\\"";
      case '\\' => text := "\\\\";
      case '\n' => text := "\\n";
      case '\r' => text := "\\r";
      case '\t' => text := "\\t";
      case _ =>
        if c as int == 8 {
          text := "\\b";
        } else if c as int == 12 {
          text := "\\f";
        } else if IsControl(c) {
          text := "\\u00" + [HexDigit(c as int / 16), HexDigit(c as int % 16)];
        } else {
          text := [c];
        }
    }
  }

  lemma QuoteTurn(result: string, more: string, rest: string)
    ensures result + ((more + rest) + "\"") == result + more + (rest + "\"")
  {
  }

  /** The quoted form of a C string: as it is when nothing needs an escape, else character by character. */
  method ValueToQuotedString(value: string) returns (result: string)
    requires '\0' !in value
    ensures result == Quote(Pieces(value))
  {
    hide SpellPiece;
    hide PieceFor;
    var control := ContainsControlCharacter(value);
    if (forall c :: c in value ==> c !in ['"', '\\', 8 as char, 12 as char, '\n', '\r', '\t']) && !control {
      PlainPieces(value);
      return "\"" + (value + "\"");
    }
    result := "\"";
    for i := 0 to |value|
      invariant result + (Spell(Pieces(value[i..])) + "\"") == Quote(Pieces(value))
    {
      assert value[i..] == [value[i]] + value[i + 1..];
      var more := EscapeCharacter(value[i]);
      QuoteTurn(result, more, Spell(Pieces(value[i + 1..])));
      result := result + more;
    }
    result := result + "\"";
  }
}
