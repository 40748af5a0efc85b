/** What the reader makes of a document when it finds no error, as functions of the document and a
    position: None stands for "an error was reported". */
module JsonParse {
  import opened Common
  import opened JsonValue
  import opened JsonScan

  /** `scans` is the floating point scanner: whether it accepts a token. */
  datatype Features = Features(allowComments: bool, strictRoot: bool, scans: string -> bool)

  function FirstToken(f: Features, doc: string, p: nat): (t: Token)
    requires p <= |doc|
    ensures p <= t.start <= t.end <= |doc|
    ensures t.end == p ==> t.kind == EndOfStream && p == |doc|
    ensures t.kind == QuotedString ==> t.start + 2 <= t.end
  {
    if f.allowComments then NextNonComment(doc, p) else NextToken(doc, p)
  }

  /** A number token's value: with a sign it is tagged signed whatever it is. */
  function NumberValue(f: Features, text: string): Option<Value>
  {
    match DecodeNumber(text)
    case Integer(n) => Some(if text != [] && text[0] == '-' then Int(n) else IntValue(n))
    case Double => if f.scans(text) then Some(Real(text)) else None
    case Bad => None
  }

  function StringText(doc: string, t: Token): Option<string>
    requires t.start + 2 <= t.end <= |doc|
  {
    Unescape(doc[t.start + 1..t.end - 1], 0)
  }

  /** A value and where it ends. */
  function ParseValue(f: Features, doc: string, p: nat): (r: Option<(Value, nat)>)
    requires p <= |doc|
    ensures r.Some? ==> p < r.value.1 <= |doc|
    decreases |doc| - p, 0
  {
    var t := FirstToken(f, doc, p);
    match t.kind
    case ObjectBegin => ParseObject(f, doc, t.end)
    case ArrayBegin => ParseArray(f, doc, t.end)
    case Number =>
      (match NumberValue(f, doc[t.start..t.end])
       case None => None
       case Some(v) => Some((v, t.end)))
    case QuotedString =>
      (match StringText(doc, t)
       case None => None
       case Some(s) => Some((Str(CStr(s)), t.end)))
    case TrueWord => Some((Bool(true), t.end))
    case FalseWord => Some((Bool(false), t.end))
    case NullWord => Some((Null, t.end))
    case _ => None
  }

  /** An array, after its opening bracket. */
  function ParseArray(f: Features, doc: string, p: nat): (r: Option<(Value, nat)>)
    requires p <= |doc|
    ensures r.Some? ==> p < r.value.1 <= |doc|
    decreases |doc| - p, 2
  {
    var q := SkipSpaces(doc, p);
    if Peek(doc, q) == ']' then Some((Arr([]), q + 1))
    else match ParseItems(f, doc, q)
      case None => None
      case Some((items, end)) => Some((Arr(items), end))
  }

  /** An object, after its opening brace. */
  function ParseObject(f: Features, doc: string, p: nat): (r: Option<(Value, nat)>)
    requires p <= |doc|
    ensures r.Some? ==> p < r.value.1 <= |doc|
    decreases |doc| - p, 2
  {
    match ParseMembers(f, doc, p, [], "")
    case None => None
    case Some((ms, end)) => Some((Obj(ms), end))
  }

  /** The elements of an array, up to its closing bracket. */
  function ParseItems(f: Features, doc: string, p: nat): (r: Option<(seq<Value>, nat)>)
    requires p <= |doc|
    ensures r.Some? ==> p < r.value.1 <= |doc|
    decreases |doc| - p, 1
  {
    match ParseValue(f, doc, p)
    case None => None
    case Some((v, q)) =>
      var t := NextNonComment(doc, q);
      if t.kind == ArrayEnd then Some(([v], t.end))
      else if t.kind != ArraySeparator then None
      else match ParseItems(f, doc, t.end)
        case None => None
        case Some((rest, end)) => Some(([v] + rest, end))
  }

  /** The members of an object, up to its closing brace, added to `ms`; `name` is the last name read,
      empty at first: a closing brace is let through where it is empty. */
  function ParseMembers(f: Features, doc: string, p: nat, ms: seq<Member>, name: string)
    : (r: Option<(seq<Member>, nat)>)
    requires p <= |doc|
    ensures r.Some? ==> p < r.value.1 <= |doc|
    decreases |doc| - p, 1
  {
    var t := NextNonComment(doc, p);
    if t.kind == ObjectEnd && name == "" then Some((ms, t.end))
    else if t.kind != QuotedString then None
    else match ParseMember(f, doc, t)
      case None => None
      case Some((name', v, q)) =>
        var ms' := Put(ms, CStr(name'), v);
        match Separator(doc, q)
        case None => None
        case Some(sep) =>
          if sep.kind == ObjectEnd then Some((ms', sep.end)) else ParseMembers(f, doc, sep.end, ms', name')
  }

  /** A member, from its name token on: the name, the value, and where the value ends. */
  function ParseMember(f: Features, doc: string, t: Token): (r: Option<(string, Value, nat)>)
    requires t.start + 2 <= t.end <= |doc|
    ensures r.Some? ==> t.end < r.value.2 <= |doc|
    decreases |doc| - t.end, 2
  {
    match StringText(doc, t)
    case None => None
    case Some(name) =>
      var colon := NextToken(doc, t.end);
      if colon.kind != MemberSeparator then None
      else match ParseValue(f, doc, colon.end)
        case None => None
        case Some((v, q)) => Some((name, v, q))
  }

  /** The token that stands for the separator after a member: after a comment, whatever token comes. */
  function Separator(doc: string, q: nat): (r: Option<Token>)
    requires q <= |doc|
    ensures r.Some? ==> q < r.value.end <= |doc|
  {
    var comma := NextToken(doc, q);
    if comma.kind == Comment then Some(NextNonComment(doc, comma.end))
    else if comma.kind == ObjectEnd || comma.kind == ArraySeparator then Some(comma)
    else None
  }

  /** The whole document: its first value; what follows it is not looked at. */
  function Parse(f: Features, doc: string): Option<Value>
  {
    match ParseValue(f, doc, 0)
    case None => None
    case Some((v, _)) => if f.strictRoot && !v.Arr? && !v.Obj? then None else Some(v)
  }

  // ---- One turn of each loop ------------------------------------------------

  /** An element, and the token after it. */
  lemma ItemsTurn(f: Features, doc: string, p: nat)
    requires p <= |doc|
    ensures ParseValue(f, doc, p) == None ==> ParseItems(f, doc, p) == None
    ensures ParseValue(f, doc, p).Some? ==>
      var (v, q) := ParseValue(f, doc, p).value;
      var t := NextNonComment(doc, q);
      && (t.kind == ArrayEnd ==> ParseItems(f, doc, p) == Some(([v], t.end)))
      && (t.kind == ArraySeparator ==> ParseItems(f, doc, p) == After([v], ParseItems(f, doc, t.end)))
      && (t.kind != ArrayEnd && t.kind != ArraySeparator ==> ParseItems(f, doc, p) == None)
  {
    hide NextNonComment;
    hide ParseValue;
  }

  /** A list that begins with `items`, the rest as parsed. */
  function After(items: seq<Value>, rest: Option<(seq<Value>, nat)>): Option<(seq<Value>, nat)>
  {
    match rest case None => None case Some((more, end)) => Some((items + more, end))
  }

  lemma AfterNothing(rest: Option<(seq<Value>, nat)>)
    ensures After([], rest) == rest
  {
    if rest.Some? { assert [] + rest.value.0 == rest.value.0; }
  }

  lemma AfterEnds(items: seq<Value>, rest: Option<(seq<Value>, nat)>)
    ensures rest == None ==> After(items, rest) == None
    ensures rest.Some? ==> After(items, rest) == Some((items + rest.value.0, rest.value.1))
  {
  }

  lemma AfterMore(items: seq<Value>, v: Value, rest: Option<(seq<Value>, nat)>)
    ensures After(items, After([v], rest)) == After(items + [v], rest)
  {
    if rest.Some? { assert items + ([v] + rest.value.0) == items + [v] + rest.value.0; }
  }

  lemma MembersTurn(f: Features, doc: string, p: nat, ms: seq<Member>, name: string)
    requires p <= |doc|
    ensures var t := NextNonComment(doc, p);
      ParseMembers(f, doc, p, ms, name) ==
        if t.kind == ObjectEnd && name == "" then Some((ms, t.end))
        else if t.kind != QuotedString || ParseMember(f, doc, t) == None then None
        else
          var (name', v, q) := ParseMember(f, doc, t).value;
          if Separator(doc, q) == None then None
          else
            var sep := Separator(doc, q).value;
            var ms' := Put(ms, CStr(name'), v);
            if sep.kind == ObjectEnd then Some((ms', sep.end)) else ParseMembers(f, doc, sep.end, ms', name')
  {
    hide NextNonComment;
    hide ParseMember;
    hide Separator;
    hide Put;
    hide CStr;
  }
}
