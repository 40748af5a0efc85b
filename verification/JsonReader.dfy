/** The reader itself: a cursor, a stack of values under construction and a list of errors, moved by
    loops and recursive methods. Each method is proved to do what JsonScan and JsonParse say. */
module JsonReader {
  import opened Common
  import opened JsonValue
  import opened JsonScan
  import opened JsonParse

  /** The reader's messages, by what they complain of. */
  datatype Fault =
    | ValueExpected | NotANumber | EmptyEscape | BadEscape | FourDigitsExpected | HexDigitExpected
    | SixMoreExpected | SecondHalfExpected | MissingColon | MissingComma | MissingMember | MissingBracket | BadRoot

  datatype ErrorInfo = ErrorInfo(fault: Fault, start: nat, end: nat)

  /** Exactly one error more, with a place inside the document. */
  ghost predicate OneMore(reported: seq<ErrorInfo>, errors: seq<ErrorInfo>, document: string)
  {
    |errors| == |reported| + 1 && reported < errors && errors[|reported|].start <= errors[|reported|].end <= |document|
  }

  class Reader {
    const features: Features
    var document: string
    var current: nat
    /** `nodes` is the stack of values being read; the value under construction is the last. */
    var nodes: seq<Value>
    var errors: seq<ErrorInfo>

    constructor (features: Features)
      ensures this.features == features && document == "" && current == 0 && nodes == [] && errors == []
    {
      this.features := features;
      document, current, nodes, errors := "", 0, [], [];
    }

    ghost predicate Valid()
      reads this`document, this`current
    {
      current <= |document|
    }

    // ---- Characters -------------------------------------------------------

    method GetNextChar() returns (c: char)
      requires Valid()
      modifies this`current
      ensures Valid() && c == Peek(document, old(current))
      ensures current == if old(current) == |document| then old(current) else old(current) + 1
    {
      if current == |document| { return '\0'; }
      c := document[current];
      current := current + 1;
    }

    method SkipBlanks()
      requires Valid()
      modifies this`current
      ensures Valid() && current == SkipSpaces(document, old(current))
    {
      while current != |document|
        invariant Valid() && SkipSpaces(document, current) == SkipSpaces(document, old(current))
        decreases |document| - current
      {
        if IsSpace(document[current]) { current := current + 1; } else { break; }
      }
    }

    method Match(pattern: string) returns (ok: bool)
      requires Valid()
      modifies this`current
      ensures Valid() && ok == WordAt(document, old(current), pattern)
      ensures current == old(current) + if ok then |pattern| else 0
    {
      if |document| - current < |pattern| { return false; }
      var index := |pattern|;
      while index > 0
        invariant 0 <= index <= |pattern|
        invariant forall j :: index <= j < |pattern| ==> document[current + j] == pattern[j]
      {
        index := index - 1;
        if document[current + index] != pattern[index] {
          assert document[current..current + |pattern|][index] != pattern[index];
          return false;
        }
      }
      assert document[current..current + |pattern|] == pattern;
      current := current + |pattern|;
      ok := true;
    }

    method ReadCStyleComment() returns (ok: bool)
      requires Valid()
      modifies this`current
      ensures Valid() && (ok, current) == CCommentEnd(document, old(current))
    {
      while current != |document|
        invariant Valid() && CCommentEnd(document, current) == CCommentEnd(document, old(current))
        decreases |document| - current
      {
        ghost var at := current;
        var c := GetNextChar();
        if c == '*' && Peek(document, current) == '/' {
          assert CCommentEnd(document, at) == (true, at + 2);
          break;
        }
      }
      var slash := GetNextChar();
      ok := slash == '/';
    }

    method ReadCppStyleComment()
      requires Valid()
      modifies this`current
      ensures Valid() && current == CppCommentEnd(document, old(current))
    {
      while current != |document|
        invariant Valid() && CppCommentEnd(document, current) == CppCommentEnd(document, old(current))
        decreases |document| - current
      {
        var c := GetNextChar();
        if c == '\r' || c == '\n' { break; }
      }
    }

    method ReadComment() returns (ok: bool)
      requires Valid()
      modifies this`current
      ensures Valid() && (ok, current) == CommentEnd(document, old(current))
    {
      var c := GetNextChar();
      ok := false;
      if c == '*' {
        ok := ReadCStyleComment();
      } else if c == '/' {
        ReadCppStyleComment();
        ok := true;
      }
    }

    method ReadNumber()
      requires Valid()
      modifies this`current
      ensures Valid() && current == NumberEnd(document, old(current))
    {
      while current != |document|
        invariant Valid() && NumberEnd(document, current) == NumberEnd(document, old(current))
        decreases |document| - current
      {
        if !IsNumberChar(document[current]) { break; }
        current := current + 1;
      }
    }

    method ReadString() returns (ok: bool)
      requires Valid()
      modifies this`current
      ensures Valid() && (ok, current) == StringEnd(document, old(current))
    {
      var c := '\0';
      while current != |document|
        invariant Valid() && c != '"' && StringEnd(document, current) == StringEnd(document, old(current))
        decreases |document| - current
      {
        ghost var at := current;
        c := GetNextChar();
        assert c == '"' ==> StringEnd(document, at) == (true, current);
        if c == '\\' {
          var escaped := GetNextChar();
        } else if c == '"' {
          break;
        }
      }
      ok := c == '"';
    }

    // ---- Tokens -----------------------------------------------------------

    method ReadToken() returns (t: Token)
      requires Valid()
      modifies this`current
      ensures Valid() && t == NextToken(document, old(current)) && current == t.end
    {
      SkipBlanks();
      var start := current;
      var c := GetNextChar();
      var kind, ok := Error, true;
      match c {
        case '{' => kind := ObjectBegin;
        case '}' => kind := ObjectEnd;
        case '[' => kind := ArrayBegin;
        case ']' => kind := ArrayEnd;
        case '"' => kind := QuotedString; ok := ReadString();
        case '/' => kind := Comment; ok := ReadComment();
        case '-' => kind := Number; ReadNumber();
        case 't' => kind := TrueWord; ok := Match("rue");
        case 'f' => kind := FalseWord; ok := Match("alse");
        case 'n' => kind := NullWord; ok := Match("ull");
        case ',' => kind := ArraySeparator;
        case ':' => kind := MemberSeparator;
        case '\0' => kind := EndOfStream;
        case _ =>
          if IsDigit(c) {
            kind := Number;
            ReadNumber();
          } else {
            ok := false;
          }
      }
      t := Token(if ok then kind else Error, start, current);
    }

    method SkipCommentTokens() returns (t: Token)
      requires Valid()
      modifies this`current
      ensures Valid() && t == FirstToken(features, document, old(current)) && current == t.end
    {
      if features.allowComments {
        t := ReadTokenPastComments();
      } else {
        t := ReadToken();
      }
    }

    method ReadTokenPastComments() returns (t: Token)
      requires Valid()
      modifies this`current
      ensures Valid() && t == NextNonComment(document, old(current)) && current == t.end
    {
      t := ReadToken();
      t := SkipComments(t);
    }

    /** Reads on past comments, from a token already read. */
    method SkipComments(first: Token) returns (t: Token)
      requires Valid() && current == first.end
      modifies this`current
      ensures Valid() && current == t.end && old(current) <= current
      ensures t == if first.kind == Comment then NextNonComment(document, old(current)) else first
    {
      t := first;
      while t.kind == Comment
        invariant Valid() && current == t.end && old(current) <= current
        invariant (if t.kind == Comment then NextNonComment(document, current) else t)
          == if first.kind == Comment then NextNonComment(document, old(current)) else first
        decreases |document| - current + (if t.kind == Comment then 1 else 0)
      {
        t := ReadToken();
      }
    }

    // ---- Errors -----------------------------------------------------------

    method AddError(fault: Fault, t: Token) returns (ok: bool)
      modifies this`errors
      ensures !ok && errors == old(errors) + [ErrorInfo(fault, t.start, t.end)]
    {
      errors := errors + [ErrorInfo(fault, t.start, t.end)];
      ok := false;
    }

    /** Skips to a token of the given kind or to the end; tokens are never reported as errors. */
    method RecoverFromError(skipUntil: Kind) returns (ok: bool)
      requires Valid()
      modifies this`current
      ensures Valid() && !ok && current == SkippedTo(document, old(current), skipUntil)
    {
      hide NextToken;
      while true
        invariant Valid() && SkippedTo(document, current, skipUntil) == SkippedTo(document, old(current), skipUntil)
        decreases |document| - current
      {
        var skip := ReadToken();
        if skip.kind == skipUntil || skip.kind == EndOfStream { break; }
      }
      ok := false;
    }

    method AddErrorAndRecover(fault: Fault, t: Token, skipUntil: Kind) returns (ok: bool)
      requires Valid()
      modifies this`errors, this`current
      ensures Valid() && !ok && current == SkippedTo(document, old(current), skipUntil)
      ensures errors == old(errors) + [ErrorInfo(fault, t.start, t.end)]
    {
      var added := AddError(fault, t);
      ok := RecoverFromError(skipUntil);
    }

    // ---- Decoding ---------------------------------------------------------

    method SetCurrentValue(v: Value)
      requires nodes != []
      modifies this`nodes
      ensures nodes == old(nodes)[|old(nodes)| - 1 := v]
    {
      nodes := nodes[|nodes| - 1 := v];
    }

    method DecodeDouble(t: Token) returns (ok: bool)
      requires Valid() && t.start <= t.end <= |document| && nodes != []
      modifies this`nodes, this`errors
      ensures ok == features.scans(document[t.start..t.end])
      ensures ok ==> nodes == old(nodes)[|old(nodes)| - 1 := Real(document[t.start..t.end])] && errors == old(errors)
      ensures !ok ==> nodes == old(nodes) && errors == old(errors) + [ErrorInfo(NotANumber, t.start, t.end)]
    {
      var text := document[t.start..t.end];
      if features.scans(text) {
        SetCurrentValue(Real(text));
        ok := true;
      } else {
        ok := AddError(NotANumber, t);
      }
    }

    /** Whether the token must go to the floating point scanner, found by one pass over it. */
    static method Inspect(text: string) returns (isDouble: bool)
      ensures isDouble == LooksDouble(text)
    {
      isDouble := false;
      for i := 0 to |text|
        invariant isDouble <==> exists j :: 0 <= j < i && (text[j] in ".eE+" || (text[j] == '-' && j > 0))
      {
        isDouble := isDouble || text[i] in ".eE+" || (text[i] == '-' && i != 0);
      }
    }

    method DecodeNumberToken(t: Token) returns (ok: bool)
      requires Valid() && t.start <= t.end <= |document| && nodes != []
      modifies this`nodes, this`errors
      ensures ok <==> NumberValue(features, document[t.start..t.end]).Some?
      ensures ok ==> errors == old(errors)
      ensures ok ==> nodes == old(nodes)[|old(nodes)| - 1 := NumberValue(features, document[t.start..t.end]).value]
      ensures !ok ==> nodes == old(nodes) && errors == old(errors) + [ErrorInfo(NotANumber, t.start, t.end)]
    {
      var text := document[t.start..t.end];
      var isDouble := Inspect(text);
      if isDouble {
        ok := DecodeDouble(t);
        return;
      }
      var i := 0;
      var isNegative := text != [] && text[0] == '-';
      if isNegative { i := 1; }
      var maxIntegerValue := if isNegative then TWO_63 else TWO_64 - 1;
      var threshold, lastDigitThreshold := maxIntegerValue / 10, maxIntegerValue % 10;
      var value: nat := 0;
      while i < |text|
        invariant 0 <= i <= |text| && nodes == old(nodes) && errors == old(errors)
        invariant DigitLoop(text, i, value, isNegative) == DecodeNumber(text)
        decreases |text| - i
      {
        var c := text[i];
        i := i + 1;
        if !IsDigit(c) {
          ok := AddError(NotANumber, t);
          return;
        }
        var digit := c as int - '0' as int;
        if value >= threshold && (i != |text| || digit > lastDigitThreshold) {
          ok := DecodeDouble(t);
          return;
        }
        value := (value * 10 + digit) % TWO_64;
      }
      if isNegative {
        SetCurrentValue(Int(Negated(value)));
      } else if value <= MAX_INT32 {
        SetCurrentValue(Int(value));
      } else {
        SetCurrentValue(UInt(value));
      }
      ok := true;
    }

    /** What is wrong with four digits that are not: too few characters, or one that is no digit. */
    static function HexFault(text: string, i: nat): Fault
      requires i <= |text|
    {
      if |text| - i < 4 then FourDigitsExpected else HexDigitExpected
    }

    /** What is wrong with an escape: its own digits, or, for a high surrogate, what should come after them. */
    static function CodePointFault(text: string, i: nat): Fault
      requires i <= |text|
    {
      if Hex4(text, i) == None then HexFault(text, i)
      else if |text| - (i + 4) < 6 then SixMoreExpected
      else if text[i + 4] == '\\' && text[i + 5] == 'u' then HexFault(text, i + 6)
      else SecondHalfExpected
    }

    method DecodeUnicodeEscapeSequence(t: Token, text: string, i: nat) returns (ok: bool, unicode: nat)
      requires i <= |text|
      modifies this`errors
      ensures ok <==> Hex4(text, i).Some?
      ensures ok ==> unicode == Hex4(text, i).value && i + 4 <= |text| && errors == old(errors)
      ensures !ok ==> errors == old(errors) + [ErrorInfo(HexFault(text, i), t.start, t.end)]
    {
      unicode := 0;
      if |text| - i < 4 {
        ok := AddError(FourDigitsExpected, t);
        return;
      }
      for index := 0 to 4
        invariant errors == old(errors) && HexLoop(text, i + index, i + 4, unicode) == Hex4(text, i)
      {
        var c := text[i + index];
        if '0' <= c <= '9' {
          unicode := unicode * 16 + (c as int - '0' as int);
        } else if 'a' <= c <= 'f' {
          unicode := unicode * 16 + (c as int - 'a' as int + 10);
        } else if 'A' <= c <= 'F' {
          unicode := unicode * 16 + (c as int - 'A' as int + 10);
        } else {
          ok := AddError(HexDigitExpected, t);
          return;
        }
      }
      ok := true;
    }

    method DecodeUnicodeCodePoint(t: Token, text: string, i: nat) returns (ok: bool, unicode: nat, next: nat)
      requires i <= |text|
      modifies this`errors
      ensures ok <==> CodePoint(text, i).Some?
      ensures ok ==> (unicode, next) == CodePoint(text, i).value && errors == old(errors)
      ensures !ok ==> errors == old(errors) + [ErrorInfo(CodePointFault(text, i), t.start, t.end)]
    {
      hide Hex4;
      hide Combined;
      next := i;
      ok, unicode := DecodeUnicodeEscapeSequence(t, text, i);
      if !ok { return; }
      next := i + 4;
      if 0xD800 <= unicode <= 0xDBFF {
        if |text| - next < 6 {
          ok := AddError(SixMoreExpected, t);
        } else if text[next] == '\\' && text[next + 1] == 'u' {
          var surrogatePair;
          ok, surrogatePair := DecodeUnicodeEscapeSequence(t, text, next + 2);
          if ok {
            unicode := Combined(unicode, surrogatePair);
            next := next + 6;
          }
        } else {
          ok := AddError(SecondHalfExpected, t);
        }
      }
    }

    /** The text of a string token, escapes resolved one after the other. */
    method DecodeStringToken(t: Token) returns (ok: bool, decoded: string)
      requires Valid() && t.start + 2 <= t.end <= |document|
      modifies this`errors
      ensures ok <==> StringText(document, t).Some?
      ensures ok ==> decoded == StringText(document, t).value && errors == old(errors)
      ensures !ok ==> OneMore(old(errors), errors, document)
    {
      var text := document[t.start + 1..t.end - 1];
      var i := 0;
      decoded := "";
      PrependNothing(Unescape(text, 0));
      while i != |text|
        invariant 0 <= i <= |text| && errors == old(errors)
        invariant Prepend(decoded, Unescape(text, i)) == StringText(document, t)
        decreases |text| - i
      {
        var c := text[i];
        i := i + 1;
        if c == '"' {
          return true, decoded;
        } else if c == '\\' {
          if i == |text| {
            ok := AddError(EmptyEscape, t);
            return;
          }
          var escape := text[i];
          i := i + 1;
          if escape == 'u' {
            var unicode, next;
            ok, unicode, next := DecodeUnicodeCodePoint(t, text, i);
            if !ok { return; }
            PrependMore(decoded, Utf8(unicode), Unescape(text, next));
            decoded := decoded + Utf8(unicode);
            i := next;
          } else {
            match SimpleEscape(escape) {
              case None =>
                ok := AddError(BadEscape, t);
                return;
              case Some(e) =>
                PrependMore(decoded, [e], Unescape(text, i));
                decoded := decoded + [e];
            }
          }
        } else {
          PrependMore(decoded, [c], Unescape(text, i));
          decoded := decoded + [c];
        }
      }
      ok := true;
    }

    // ---- Values -----------------------------------------------------------

    /** What reading one value leaves behind. In every case the stack has its depth back and nothing
        below its top has changed; without an error the top is the value, and nothing was reported;
        after an error something was. */
    ghost predicate Left(ok: bool, r: Option<(Value, nat)>, stack: seq<Value>, reported: seq<ErrorInfo>)
      requires stack != []
      reads this`current, this`nodes, this`errors, this`document
    {
      && (ok <==> r.Some?)
      && |nodes| == |stack| && nodes[..|stack| - 1] == stack[..|stack| - 1]
      && (ok ==> r.value == (nodes[|stack| - 1], current) && errors == reported)
      && (!ok ==> OneMore(reported, errors, document))
    }

    method ReadValue() returns (ok: bool)
      requires Valid() && nodes != []
      modifies this`current, this`nodes, this`errors
      ensures Valid() && old(current) <= current
      ensures Left(ok, ParseValue(features, document, old(current)), old(nodes), old(errors))
      decreases |document| - current, 0
    {
      var t := SkipCommentTokens();
      match t.kind {
        case ObjectBegin => ok := ReadObject();
        case ArrayBegin => ok := ReadArray();
        case Number => ok := DecodeNumberToken(t);
        case QuotedString =>
          var decoded;
          ok, decoded := DecodeStringToken(t);
          if ok { SetCurrentValue(Str(CStr(decoded))); }
        case TrueWord => SetCurrentValue(Bool(true)); ok := true;
        case FalseWord => SetCurrentValue(Bool(false)); ok := true;
        case NullWord => SetCurrentValue(Null); ok := true;
        case _ => ok := AddError(ValueExpected, t);
      }
    }

    /** Reads one element or member: its value goes on the stack, is read, and comes off again. */
    method ReadChild(before: Value) returns (ok: bool, value: Value)
      requires Valid()
      modifies this`current, this`nodes, this`errors
      ensures Valid() && old(current) <= current && nodes == old(nodes)
      ensures ok <==> ParseValue(features, document, old(current)).Some?
      ensures ok ==> ParseValue(features, document, old(current)) == Some((value, current)) && errors == old(errors)
      ensures !ok ==> OneMore(old(errors), errors, document)
      decreases |document| - current, 1
    {
      nodes := nodes + [before];
      ok := ReadValue();
      value := nodes[|nodes| - 1];
      nodes := nodes[..|nodes| - 1];
    }

    /** The rest of an array, after its opening bracket. */
    method ReadArray() returns (ok: bool)
      requires Valid() && nodes != []
      modifies this`current, this`nodes, this`errors
      ensures Valid() && old(current) <= current
      ensures Left(ok, ParseArray(features, document, old(current)), old(nodes), old(errors))
      decreases |document| - current, 3
    {
      hide ParseItems;
      SetCurrentValue(Arr([]));
      SkipBlanks();
      if Peek(document, current) == ']' {
        var endArray := ReadToken();
        return true;
      }
      ok := ReadItems();
    }

    /** The elements, up to the closing bracket; on an error the rest of the array is skipped. */
    method ReadItems() returns (ok: bool)
      requires Valid() && nodes != [] && nodes[|nodes| - 1] == Arr([])
      modifies this`current, this`nodes, this`errors
      ensures Valid() && old(current) <= current
      ensures |nodes| == |old(nodes)| && nodes[..|nodes| - 1] == old(nodes)[..|nodes| - 1]
      ensures ok <==> ParseItems(features, document, old(current)).Some?
      ensures ok ==> Some((nodes[|nodes| - 1], current)) == Listed(ParseItems(features, document, old(current)))
      ensures ok ==> errors == old(errors)
      ensures !ok ==> OneMore(old(errors), errors, document)
      decreases |document| - current, 2
    {
      hide NextNonComment;
      hide ParseValue;
      hide ParseItems;
      hide After;
      hide SkippedTo;
      ghost var goal := ParseItems(features, document, current);
      var items: seq<Value> := [];
      AfterNothing(goal);
      while true
        invariant Valid() && old(current) <= current && errors == old(errors)
        invariant nodes == old(nodes)[|old(nodes)| - 1 := Arr(items)]
        invariant goal == After(items, ParseItems(features, document, current))
        decreases |document| - current
      {
        ItemsTurn(features, document, current);
        AfterEnds(items, ParseItems(features, document, current));
        SetCurrentValue(Arr(items + [Null]));  // the element is there, null, before it is read
        var element;
        ok, element := ReadChild(Null);
        SetCurrentValue(Arr(items + [element]));
        if !ok {
          ok := RecoverFromError(ArrayEnd);
          return;
        }
        var t := ReadTokenPastComments();
        if t.kind != ArraySeparator && t.kind != ArrayEnd {
          ok := AddErrorAndRecover(MissingBracket, t, ArrayEnd);
          return;
        }
        AfterMore(items, element, ParseItems(features, document, current));
        items := items + [element];
        if t.kind == ArrayEnd { return true; }
      }
    }

    /** A list of elements as an array. */
    static function Listed(r: Option<(seq<Value>, nat)>): Option<(Value, nat)>
    {
      match r case None => None case Some((items, end)) => Some((Arr(items), end))
    }

    /** One member, from its name to its value; on an error the rest of the object is skipped. */
    method ReadMember(tokenName: Token, members: seq<Member>) returns (ok: bool, name: string, value: Value)
      requires Valid() && nodes != [] && tokenName.start + 2 <= tokenName.end == current
      modifies this`current, this`nodes, this`errors
      ensures Valid() && old(current) <= current
      ensures ok <==> ParseMember(features, document, tokenName).Some?
      ensures ok ==> ParseMember(features, document, tokenName) == Some((name, value, current))
      ensures ok ==> nodes == old(nodes)[|old(nodes)| - 1 := Obj(Put(members, CStr(name), value))]
      ensures ok ==> errors == old(errors)
      ensures !ok ==> OneMore(old(errors), errors, document)
      ensures !ok ==> |nodes| == |old(nodes)| && nodes[..|nodes| - 1] == old(nodes)[..|nodes| - 1]
      decreases |document| - current, 2
    {
      hide NextToken;
      hide StringText;
      hide ParseValue;
      value := Null;
      ok, name := DecodeStringToken(tokenName);
      if !ok {
        ok := RecoverFromError(ObjectEnd);
        return;
      }
      var colon := ReadToken();
      if colon.kind != MemberSeparator {
        ok := AddErrorAndRecover(MissingColon, colon, ObjectEnd);
        return;
      }
      var before := Find(members, CStr(name)).GetOr(Null);
      SetCurrentValue(Obj(Put(members, CStr(name), before)));  // there, null or as it was, before it is read
      ok, value := ReadChild(before);
      SetCurrentValue(Obj(Put(members, CStr(name), value)));
      if !ok { ok := RecoverFromError(ObjectEnd); }
    }

    method ReadSeparator() returns (ok: bool, comma: Token)
      requires Valid()
      modifies this`current, this`errors
      ensures Valid() && old(current) <= current
      ensures ok <==> Separator(document, old(current)).Some?
      ensures ok ==> Separator(document, old(current)) == Some(comma) && current == comma.end && errors == old(errors)
      ensures !ok ==> OneMore(old(errors), errors, document)
    {
      hide NextToken;
      hide NextNonComment;
      comma := ReadToken();
      if comma.kind != ObjectEnd && comma.kind != ArraySeparator && comma.kind != Comment {
        ok := AddErrorAndRecover(MissingComma, comma, ObjectEnd);
        return;
      }
      comma := SkipComments(comma);
      ok := true;
    }

    /** The rest of an object, after its opening brace. */
    method ReadObject() returns (ok: bool)
      requires Valid() && nodes != []
      modifies this`current, this`nodes, this`errors
      ensures Valid() && old(current) <= current
      ensures Left(ok, ParseObject(features, document, old(current)), old(nodes), old(errors))
      decreases |document| - current, 2
    {
      hide NextNonComment;
      hide ParseMember;
      hide ParseMembers;
      hide Separator;
      hide SkippedTo;
      hide Put;
      hide CStr;
      SetCurrentValue(Obj([]));
      ghost var goal := ParseMembers(features, document, current, [], "");
      var members: seq<Member> := [];
      var name := "";
      var tokenName;
      while true
        invariant Valid() && old(current) <= current && errors == old(errors)
        invariant nodes == old(nodes)[|old(nodes)| - 1 := Obj(members)]
        invariant goal == ParseMembers(features, document, current, members, name)
        decreases |document| - current
      {
        MembersTurn(features, document, current, members, name);
        tokenName := ReadTokenPastComments();
        if tokenName.kind == ObjectEnd && name == "" { return true; }
        if tokenName.kind != QuotedString { break; }
        var value, comma;
        ok, name, value := ReadMember(tokenName, members);
        if !ok { return; }
        members := Put(members, CStr(name), value);
        ok, comma := ReadSeparator();
        if !ok || comma.kind == ObjectEnd { return; }
      }
      ok := AddErrorAndRecover(MissingMember, tokenName, ObjectEnd);
    }

    /** The whole document. Reading always ends, with the cursor inside the document and the stack down
        to the root; it succeeds, without any error reported, exactly when Parse yields a value, which
        is then the root; otherwise one error is reported, or, a malformed root being refused as well, two. */
    method ParseDocument(doc: string) returns (ok: bool, root: Value)
      modifies this
      ensures Valid() && document == doc && nodes == [root]
      ensures ok <==> Parse(features, doc).Some?
      ensures ok ==> root == Parse(features, doc).value
      ensures errors == [] <==> ok
      ensures |errors| <= 2 && (|errors| == 2 ==> features.strictRoot && ParseValue(features, doc, 0) == None)
      ensures !ok && ParseValue(features, doc, 0).Some? ==> errors == [ErrorInfo(BadRoot, 0, |doc|)]
      ensures forall e :: e in errors ==> e.start <= e.end <= |doc|
    {
      document, current, errors := doc, 0, [];
      nodes := [Null];
      ok := ReadValue();
      var t := SkipCommentTokens();
      root := nodes[0];
      if features.strictRoot && !root.Arr? && !root.Obj? {
        ok := AddError(BadRoot, Token(Error, 0, |doc|));
      }
    }
  }

  lemma PrependNothing(rest: Option<string>)
    ensures Prepend("", rest) == rest
  {
    if rest.Some? { assert "" + rest.value == rest.value; }
  }

  lemma PrependMore(a: string, b: string, rest: Option<string>)
    ensures Prepend(a, Prepend(b, rest)) == Prepend(a + b, rest)
  {
    if rest.Some? { assert a + (b + rest.value) == a + b + rest.value; }
  }
}
