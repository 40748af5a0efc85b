/** Info strings: `\key\value` pairs in a character buffer, read and rewritten in place. A string here is
    a C string without its terminating NUL. */
module InfoString {
  import opened Common
  import opened Placing

  const BIG_INFO_STRING := 8192

  // ---- Reading ------------------------------------------------------------

  /** The next backslash, or the end. */
  function NextSlash(s: string, p: nat): (r: nat)
    requires p <= |s|
    ensures p <= r <= |s| && (r < |s| ==> s[r] == '\\')
    ensures forall i :: p <= i < r ==> s[i] != '\\'
    decreases |s| - p
  {
    if p == |s| || s[p] == '\\' then p else NextSlash(s, p + 1)
  }

  /** A key starts after its backslash; the first may go without one. */
  function KeyStart(s: string, p: nat): (r: nat)
    requires p <= |s|
    ensures p <= r <= |s|
  {
    if p < |s| && s[p] == '\\' then p + 1 else p
  }

  /** A pair in the text: its backslash, its value, and where it ends. */
  datatype Place = Place(start: nat, value: nat, end: nat)

  /** The first pair from `p` on under that key. */
  function Find(s: string, p: nat, key: string): (r: Option<Place>)
    requires p <= |s|
    ensures r.Some? ==> p <= r.value.start < r.value.value <= r.value.end <= |s|
    decreases |s| - p
  {
    var k := KeyStart(s, p);
    var v := NextSlash(s, k);
    if v == |s| then None
    else
      var end := NextSlash(s, v + 1);
      if s[k..v] == key then Some(Place(p, v + 1, end))
      else if end == |s| then None
      else Find(s, end, key)
  }

  /** The value under a key, empty when there is none. */
  function Get(s: string, key: string): string
  {
    match Find(s, 0, key)
    case None => ""
    case Some(at) => s[at.value..at.end]
  }

  // ---- Rewriting ----------------------------------------------------------

  function Removed(s: string, key: string): string
  {
    if '\\' in key then s
    else match Find(s, 0, key)
      case None => s
      case Some(at) => s[..at.start] + s[at.end..]
  }

  predicate Forbidden(text: string) { exists c :: c in text && c in "\\;\"" }

  /** What fits a buffer of that size with its NUL. */
  function Cut(text: string): string
  {
    if |text| < BIG_INFO_STRING then text else text[..BIG_INFO_STRING - 1]
  }

  function PairText(key: string, value: string): string { "\\" + (key + ("\\" + value)) }

  function Set(s: string, key: string, value: string): string
  {
    if Forbidden(key) || Forbidden(value) then s
    else
      var rest := Removed(s, key);
      var pair := Cut(PairText(key, value));
      if value == "" || |pair| + |rest| >= BIG_INFO_STRING then rest else pair + rest
  }

  // ---- As a map -----------------------------------------------------------

  datatype Pair = Pair(key: string, value: string)

  function Encode(pairs: seq<Pair>): string
  {
    if pairs == [] then "" else PairText(pairs[0].key, pairs[0].value) + Encode(pairs[1..])
  }

  function Lookup(pairs: seq<Pair>, key: string): Option<string>
  {
    if pairs == [] then None
    else if pairs[0].key == key then Some(pairs[0].value)
    else Lookup(pairs[1..], key)
  }

  function Drop(pairs: seq<Pair>, key: string): seq<Pair>
  {
    if pairs == [] then []
    else if pairs[0].key == key then pairs[1..]
    else [pairs[0]] + Drop(pairs[1..], key)
  }

  /** No backslash inside a key or a value, and no key twice. */
  predicate Good(pairs: seq<Pair>)
  {
    && (forall i :: 0 <= i < |pairs| ==> '\\' !in pairs[i].key && '\\' !in pairs[i].value)
    && (forall i, j :: 0 <= i < j < |pairs| ==> pairs[i].key != pairs[j].key)
  }

  function MapOf(pairs: seq<Pair>): map<string, string>
  {
    if pairs == [] then map[] else MapOf(pairs[1..])[pairs[0].key := pairs[0].value]
  }

  lemma {:induction false} MapIsLookup(pairs: seq<Pair>, key: string)
    ensures Lookup(pairs, key) == if key in MapOf(pairs) then Some(MapOf(pairs)[key]) else None
  {
    if pairs != [] { MapIsLookup(pairs[1..], key); }
  }

  lemma {:induction false} SlashAfter(s: string, p: nat, text: string)
    requires At(s, p, text) && '\\' !in text
    requires p + |text| < |s| ==> s[p + |text|] == '\\'
    ensures NextSlash(s, p) == p + |text|
    decreases |text|
  {
    if text != [] {
      AtRest(s, p, text);
      SlashAfter(s, p + 1, text[1..]);
    }
  }

  lemma EncodeStarts(pairs: seq<Pair>)
    ensures Encode(pairs) == "" <==> pairs == []
    ensures pairs != [] ==> Encode(pairs)[0] == '\\'
  {
  }

  lemma PairTextIs(key: string, value: string)
    ensures PairText(key, value) == "\\" + (key + ("\\" + value)) && |PairText(key, value)| == 2 + |key| + |value|
  {
  }

  lemma PairParts(s: string, p: nat, key: string, value: string)
    requires At(s, p, PairText(key, value))
    ensures var v := p + 2 + |key|;
      v <= |s| && s[p] == '\\' && s[v - 1] == '\\' && At(s, p + 1, key) && At(s, v, value)
  {
    hide *;
    PairTextIs(key, value);
    AtSplit(s, p, "\\", key + ("\\" + value));
    AtSplit(s, p + 1, key, "\\" + value);
    AtSplit(s, p + 1 + |key|, "\\", value);
    AtRest(s, p, "\\");
    AtRest(s, p + 1 + |key|, "\\");
    AtSlice(s, p + 2 + |key|, value);
  }

  /** Where the parts of a pair stand, something that starts with a backslash or nothing coming after it. */
  lemma PairPlaces(s: string, p: nat, x: Pair, rest: string) returns (v: nat, end: nat)
    requires At(s, p, PairText(x.key, x.value) + rest) && |s| == p + |PairText(x.key, x.value)| + |rest|
    requires '\\' !in x.key && '\\' !in x.value && (rest == "" || rest[0] == '\\')
    ensures p < v <= end <= |s| && v == p + 2 + |x.key| && end == p + |PairText(x.key, x.value)| == v + |x.value|
    ensures s[p] == '\\' && s[p + 1..v - 1] == x.key && s[v..end] == x.value && s[p..end] == PairText(x.key, x.value)
    ensures At(s, end, rest) && NextSlash(s, p + 1) == v - 1 && NextSlash(s, v) == end
  {
    hide *;
    v, end := p + 2 + |x.key|, p + 2 + |x.key| + |x.value|;
    PairTextIs(x.key, x.value);
    AtSplit(s, p, PairText(x.key, x.value), rest);
    PairParts(s, p, x.key, x.value);
    AtSlice(s, p, PairText(x.key, x.value));
    AtSlice(s, p + 1, x.key);
    AtSlice(s, v, x.value);
    if rest != "" { AtRest(s, end, rest); }
    SlashAfter(s, p + 1, x.key);
    SlashAfter(s, v, x.value);
  }

  lemma FindOpens(s: string, p: nat, key: string)
    requires p <= |s|
    ensures var k := KeyStart(s, p);
      var v := NextSlash(s, k);
      Find(s, p, key) ==
        if v == |s| then None
        else
          var end := NextSlash(s, v + 1);
          if s[k..v] == key then Some(Place(p, v + 1, end))
          else if end == |s| then None
          else Find(s, end, key)
  {
    hide NextSlash;
  }

  lemma FindTurn(s: string, p: nat, key: string, v: nat, end: nat)
    requires p < v <= end <= |s| && s[p] == '\\' && NextSlash(s, p + 1) == v - 1 && NextSlash(s, v) == end
    ensures Find(s, p, key) == if s[p + 1..v - 1] == key then Some(Place(p, v, end)) else Find(s, end, key)
  {
    hide *;
    FindOpens(s, p, key);
    KeyStartIs(s, p);
    if end == |s| { NothingAtEnd(s, key); }
  }

  lemma KeyStartIs(s: string, p: nat)
    requires p < |s| && s[p] == '\\'
    ensures KeyStart(s, p) == p + 1
  {
  }

  lemma NothingAtEnd(s: string, key: string)
    ensures Find(s, |s|, key) == None
  {
  }

  lemma Rejoin(s: string, a: nat, b: nat, c: nat, d: nat)
    requires a <= b <= c <= d <= |s|
    ensures s[a..c] + s[d..] == s[a..b] + (s[b..c] + s[d..])
  {
    assert s[a..c] == s[a..b] + s[b..c];
  }

  /** Searching finds the first pair with that key. */
  lemma {:induction false} FindsFirst(s: string, p: nat, pairs: seq<Pair>, key: string)
    requires At(s, p, Encode(pairs)) && |s| == p + |Encode(pairs)| && Good(pairs)
    ensures Find(s, p, key).Some? <==> Lookup(pairs, key).Some?
    ensures Find(s, p, key).Some? ==>
      var at := Find(s, p, key).value;
      s[at.value..at.end] == Lookup(pairs, key).value && s[p..at.start] + s[at.end..] == Encode(Drop(pairs, key))
    decreases |pairs|
  {
    hide Find;
    hide PairText;
    if pairs == [] {
      NothingAtEnd(s, key);
    } else {
      var x := pairs[0];
      EncodeStarts(pairs[1..]);
      var v, end := PairPlaces(s, p, x, Encode(pairs[1..]));
      FindTurn(s, p, key, v, end);
      if x.key == key {
        assert s[p..p] + s[end..] == s[end..];
      } else {
        FindsFirst(s, end, pairs[1..], key);
        if Find(s, end, key).Some? {
          var at := Find(s, end, key).value;
          Rejoin(s, p, end, at.start, at.end);
        }
      }
    }
  }

  /** Looking up a key in a well-formed info string is looking it up in the map. */
  lemma GetIsLookup(pairs: seq<Pair>, key: string)
    requires Good(pairs)
    ensures Get(Encode(pairs), key) == if key in MapOf(pairs) then MapOf(pairs)[key] else ""
  {
    var s := Encode(pairs);
    assert s[0..0 + |s|] == s;
    FindsFirst(s, 0, pairs, key);
    MapIsLookup(pairs, key);
  }

  // ---- Rewriting refines updating the map ----------------------------------

  lemma {:induction false} DropSubset(pairs: seq<Pair>, key: string)
    requires Good(pairs)
    ensures Good(Drop(pairs, key)) && |Encode(Drop(pairs, key))| <= |Encode(pairs)|
    ensures forall x :: x in Drop(pairs, key) ==> x in pairs
  {
    hide PairText;
    if pairs != [] && pairs[0].key != key {
      DropSubset(pairs[1..], key);
      var rest := Drop(pairs[1..], key);
      forall i | 0 <= i < |rest| ensures rest[i].key != pairs[0].key { InTail(pairs, rest[i]); }
    }
  }

  lemma InTail(pairs: seq<Pair>, x: Pair)
    requires Good(pairs) && pairs != [] && x in pairs[1..]
    ensures x.key != pairs[0].key
  {
    var j :| 0 <= j < |pairs[1..]| && pairs[1..][j] == x;
    assert pairs[j + 1] == x;
  }

  lemma {:induction false} DropKeeps(pairs: seq<Pair>, key: string)
    requires Good(pairs)
    ensures Lookup(Drop(pairs, key), key) == None && MapOf(Drop(pairs, key)) == MapOf(pairs) - {key}
  {
    if pairs != [] {
      if pairs[0].key == key {
        NotThere(pairs[1..], key);
      } else {
        DropKeeps(pairs[1..], key);
        assert Drop(pairs, key)[1..] == Drop(pairs[1..], key);
      }
    }
  }

  lemma {:induction false} NotThere(pairs: seq<Pair>, key: string)
    requires forall i :: 0 <= i < |pairs| ==> pairs[i].key != key
    ensures Lookup(pairs, key) == None && key !in MapOf(pairs)
  {
    if pairs != [] { NotThere(pairs[1..], key); }
  }

  lemma {:induction false} ThereIsFound(pairs: seq<Pair>, i: nat)
    requires i < |pairs|
    ensures Lookup(pairs, pairs[i].key).Some?
  {
    if i > 0 { ThereIsFound(pairs[1..], i - 1); }
  }

  /** Removing a key removes it from the map. */
  lemma RemovedIsDrop(pairs: seq<Pair>, key: string)
    requires Good(pairs)
    ensures Removed(Encode(pairs), key) == Encode(Drop(pairs, key))
  {
    var s := Encode(pairs);
    assert s[0..0 + |s|] == s;
    FindsFirst(s, 0, pairs, key);
    if '\\' in key { SlashNotThere(pairs, key); }
    if Find(s, 0, key) == None { NothingDropped(pairs, key); }
  }

  lemma {:induction false} NothingDropped(pairs: seq<Pair>, key: string)
    requires Lookup(pairs, key) == None
    ensures Drop(pairs, key) == pairs
  {
    if pairs != [] { NothingDropped(pairs[1..], key); }
  }

  lemma {:induction false} SlashNotThere(pairs: seq<Pair>, key: string)
    requires Good(pairs) && '\\' in key
    ensures Drop(pairs, key) == pairs
  {
    hide MapOf;
    if pairs != [] {
      assert pairs[0].key != key;
      SlashNotThere(pairs[1..], key);
    }
  }

  /** A pair too long for the buffer is refused, unless nothing else stays in it: then it stays, cut. */
  predicate StaysCut(pairs: seq<Pair>, key: string, value: string)
  {
    !Forbidden(key) && !Forbidden(value) && value != "" &&
    |PairText(key, value)| >= BIG_INFO_STRING && Drop(pairs, key) == []
  }

  /** ... and when the key alone fills the buffer, even the backslash before its value is cut. */
  predicate Breaks(pairs: seq<Pair>, key: string, value: string)
  {
    StaysCut(pairs, key, value) && |key| + 2 >= BIG_INFO_STRING
  }

  /** The pairs after a set that leaves pairs. */
  function AfterSet(pairs: seq<Pair>, key: string, value: string): seq<Pair>
    requires !Breaks(pairs, key, value)
  {
    if Forbidden(key) || Forbidden(value) then pairs
    else if StaysCut(pairs, key, value) then [Pair(key, value[..BIG_INFO_STRING - 3 - |key|])]
    else if value == "" || |PairText(key, value)| + |Encode(Drop(pairs, key))| >= BIG_INFO_STRING then Drop(pairs, key)
    else [Pair(key, value)] + Drop(pairs, key)
  }

  lemma CutIsPair(key: string, value: string)
    requires |key| + 2 < BIG_INFO_STRING <= |PairText(key, value)|
    ensures PairText(key, value)[..BIG_INFO_STRING - 1] == Encode([Pair(key, value[..BIG_INFO_STRING - 3 - |key|])])
  {
    var short := value[..BIG_INFO_STRING - 3 - |key|];
    assert Encode([Pair(key, short)]) == PairText(key, short) + "";
    assert PairText(key, value)[..BIG_INFO_STRING - 1] == PairText(key, short);
  }

  lemma SetIs(pairs: seq<Pair>, key: string, value: string)
    requires Good(pairs)
    ensures Set(Encode(pairs), key, value) ==
      if Breaks(pairs, key, value) then "\\" + key[..BIG_INFO_STRING - 2]
      else Encode(AfterSet(pairs, key, value))
  {
    RemovedIsDrop(pairs, key);
    EncodeStarts(Drop(pairs, key));
    if Breaks(pairs, key, value) {
      assert PairText(key, value)[..BIG_INFO_STRING - 1] == "\\" + key[..BIG_INFO_STRING - 2];
    } else if StaysCut(pairs, key, value) {
      CutIsPair(key, value);
    }
    hide PairText;
  }

  /** A set keeps the text well formed, with each key once. */
  lemma AfterSetGood(pairs: seq<Pair>, key: string, value: string)
    requires Good(pairs) && !Breaks(pairs, key, value)
    ensures Good(AfterSet(pairs, key, value))
  {
    hide PairText;
    hide Encode;
    hide MapOf;
    hide Drop;
    hide Lookup;
    hide Forbidden;
    DropSubset(pairs, key);
    DropKeeps(pairs, key);
    if !Forbidden(key) && !Forbidden(value) {
      AllowedHasNoSlash(key);
      AllowedHasNoSlash(value);
      var rest := Drop(pairs, key);
      forall i | 0 <= i < |rest| ensures rest[i].key != key {
        ThereIsFound(rest, i);
        assert Lookup(rest, rest[i].key).Some?;
      }
    }
  }

  lemma AllowedHasNoSlash(text: string)
    requires !Forbidden(text)
    ensures '\\' !in text
  {
    assert '\\' in "\\;\"";
  }

  /** A text made of pairs has a backslash behind its first key. */
  lemma TwoSlashes(pairs: seq<Pair>)
    requires pairs != []
    ensures '\\' in Encode(pairs)[1..]
  {
    var k := |pairs[0].key|;
    assert Encode(pairs)[1..][k] == '\\';
  }

  /** A set leaves a well-formed text if and only if it does not cut into the key. */
  lemma SetStaysWellFormed(pairs: seq<Pair>, key: string, value: string)
    requires Good(pairs)
    ensures (exists after :: Good(after) && Encode(after) == Set(Encode(pairs), key, value)) <==>
      !Breaks(pairs, key, value)
  {
    SetIs(pairs, key, value);
    if Breaks(pairs, key, value) {
      assert '\\' in "\\;\"";
      var text := Set(Encode(pairs), key, value);
      assert text[1..] == key[..BIG_INFO_STRING - 2];
      forall after | Good(after) ensures Encode(after) != text {
        if after != [] { TwoSlashes(after); }
      }
    } else {
      AfterSetGood(pairs, key, value);
    }
  }

  /** The set that the source promises: a pair that fits is stored under its key; an empty value removes
      the key; a pair that does not fit leaves exactly the text without the key, or, where that is
      nothing, is stored cut short; forbidden characters leave everything as it was. */
  lemma SetRefinesMap(pairs: seq<Pair>, key: string, value: string)
    requires Good(pairs) && !Breaks(pairs, key, value)
    ensures var after := AfterSet(pairs, key, value);
      && Set(Encode(pairs), key, value) == Encode(after) && Good(after)
      && MapOf(after) ==
        if Forbidden(key) || Forbidden(value) then MapOf(pairs)
        else if StaysCut(pairs, key, value) then map[key := value[..BIG_INFO_STRING - 3 - |key|]]
        else if value == "" || |PairText(key, value)| + |Encode(Drop(pairs, key))| >= BIG_INFO_STRING then
          MapOf(pairs) - {key}
        else MapOf(pairs)[key := value]
  {
    hide PairText;
    hide Forbidden;
    hide Encode;
    SetIs(pairs, key, value);
    AfterSetGood(pairs, key, value);
    DropKeeps(pairs, key);
    var rest := Drop(pairs, key);
    assert ([Pair(key, value)] + rest)[1..] == rest;
    if StaysCut(pairs, key, value) {
      PairTextIs(key, value);
      var short := Pair(key, value[..BIG_INFO_STRING - 3 - |key|]);
      assert [short][1..] == [];
    }
  }

  lemma CutReads(key: string, value: string)
    requires '\\' !in key && '\\' !in value && value != "" && |PairText(key, value)| >= BIG_INFO_STRING
    ensures Get(PairText(key, value)[..BIG_INFO_STRING - 1], key) != value
  {
    var s := PairText(key, value)[..BIG_INFO_STRING - 1];
    if 2 + |key| <= |s| {
      var short := value[..|s| - 2 - |key|];
      assert s == PairText(key, short);
      assert Encode([Pair(key, short)]) == s + "";
      assert MapOf([Pair(key, short)]) == map[key := short];
      GetIsLookup([Pair(key, short)], key);
    } else {
      assert s == "\\" + key[..|s| - 1];
      assert s[1..] == key[..|s| - 1];
      NoSecondSlash(s, key);
    }
  }

  lemma NoSecondSlash(s: string, key: string)
    requires s != "" && s[0] == '\\' && '\\' !in s[1..]
    ensures Get(s, key) == ""
  {
    forall i | 1 <= i < |s| ensures s[i] != '\\' { assert s[i] == s[1..][i - 1]; }
  }

  /** What was set is what is read back, exactly when the pair fits with what stays. */
  lemma GetAfterSet(pairs: seq<Pair>, key: string, value: string)
    requires Good(pairs) && !Forbidden(key) && !Forbidden(value) && value != ""
    ensures Get(Set(Encode(pairs), key, value), key) == value
      <==> |key| + |value| + 2 + |Encode(Drop(pairs, key))| < 8192
  {
    assert '\\' in "\\;\"";
    RemovedIsDrop(pairs, key);
    if StaysCut(pairs, key, value) {
      CutReads(key, value);
    } else {
      SetIs(pairs, key, value);
      AfterSetGood(pairs, key, value);
      GetIsLookup(AfterSet(pairs, key, value), key);
      SetRefinesMap(pairs, key, value);
    }
  }

  /** Into an empty buffer, a key of one character with 8192 characters of value: not what was set is read back. */
  lemma LongPairIsCut(value: string)
    requires |value| == BIG_INFO_STRING && forall c :: c in value ==> c == 'b'
    ensures Set("", "a", value) == "\\a\\" + value[..BIG_INFO_STRING - 4]
    ensures Get(Set("", "a", value), "a") == value[..BIG_INFO_STRING - 4] != value
  {
    var short := value[..BIG_INFO_STRING - 4];
    assert Encode([]) == "" && Drop([], "a") == [];
    assert forall c :: c in "a" ==> c == 'a';
    SetRefinesMap([], "a", value);
    assert AfterSet([], "a", value) == [Pair("a", short)];
    assert Encode([Pair("a", short)]) == PairText("a", short) + "";
    assert PairText("a", short) == "\\a\\" + short;
    GetIsLookup([Pair("a", short)], "a");
  }

  // ---- Every sequence of operations ----------------------------------------

  datatype Op = SetKey(key: string, value: string) | RemoveKey(key: string)

  function Apply(s: string, op: Op): string
  {
    match op
    case SetKey(key, value) => Set(s, key, value)
    case RemoveKey(key) => Removed(s, key)
  }

  function Run(s: string, ops: seq<Op>): string
    decreases |ops|
  {
    if ops == [] then s else Run(Apply(s, ops[0]), ops[1..])
  }

  function ApplyPairs(pairs: seq<Pair>, op: Op): seq<Pair>
  {
    match op
    case SetKey(key, value) => if Breaks(pairs, key, value) then [] else AfterSet(pairs, key, value)
    case RemoveKey(key) => Drop(pairs, key)
  }

  function RunPairs(pairs: seq<Pair>, ops: seq<Op>): seq<Pair>
    decreases |ops|
  {
    if ops == [] then pairs else RunPairs(ApplyPairs(pairs, ops[0]), ops[1..])
  }

  /** Whatever is set and removed, in any order, the text stays well formed with each key once, and never
      outgrows the buffer; the keys are to be such as leave room for a value (SetStaysWellFormed). */
  lemma {:induction false} RunsStayGood(pairs: seq<Pair>, ops: seq<Op>)
    requires Good(pairs) && |Encode(pairs)| < BIG_INFO_STRING
    requires forall i :: 0 <= i < |ops| && ops[i].SetKey? ==> |ops[i].key| + 2 < BIG_INFO_STRING
    ensures Run(Encode(pairs), ops) == Encode(RunPairs(pairs, ops))
    ensures Good(RunPairs(pairs, ops)) && |Encode(RunPairs(pairs, ops))| < BIG_INFO_STRING
    decreases |ops|
  {
    if ops != [] {
      var next := ApplyPairs(pairs, ops[0]);
      match ops[0] {
        case SetKey(key, value) =>
          SetIs(pairs, key, value);
          AfterSetGood(pairs, key, value);
        case RemoveKey(key) =>
          RemovedIsDrop(pairs, key);
      }
      DropSubset(pairs, ops[0].key);
      RunsStayGood(next, ops[1..]);
    }
  }

  // ---- In place -----------------------------------------------------------

  ghost function Text(buffer: array<char>): string
    reads buffer
  {
    CStr(buffer[..])
  }

  /** Copies up to the next backslash or the terminating NUL. */
  method CopyToSlash(buffer: array<char>, from: nat, out: array<char>) returns (to: nat)
    requires '\0' in buffer[..] && from <= |Text(buffer)| < out.Length && buffer != out
    modifies out
    ensures to == NextSlash(Text(buffer), from)
    ensures out[..to - from] == Text(buffer)[from..to] && out[to - from] == '\0'
  {
    ghost var s := Text(buffer);
    CStrEnds(buffer[..]);
    assert s == buffer[..|s|];
    to := from;
    while buffer[to] != '\\' && buffer[to] != '\0'
      invariant from <= to <= |s| && s == buffer[..|s|] && buffer[|s|] == '\0' && '\0' !in s
      invariant NextSlash(s, to) == NextSlash(s, from)
      invariant out[..to - from] == s[from..to]
      decreases |s| - to
    {
      out[to - from] := buffer[to];
      to := to + 1;
    }
    assert to < |s| ==> buffer[to] == s[to];
    out[to - from] := '\0';
  }

  method StrLen(buffer: array<char>) returns (n: nat)
    requires '\0' in buffer[..]
    ensures n == |Text(buffer)|
  {
    hide CStr;
    TextEnds(buffer);
    ghost var s := Text(buffer);
    n := 0;
    while buffer[n] != '\0'
      invariant 0 <= n <= |s|
      decreases |s| - n
    {
      n := n + 1;
    }
  }

  lemma TextEnds(buffer: array<char>)
    requires '\0' in buffer[..]
    ensures var s := Text(buffer);
      && |s| < buffer.Length && s == buffer[..|s|] && buffer[|s|] == '\0'
      && forall i :: 0 <= i < |s| ==> s[i] == buffer[i] != '\0'
  {
    CStrEnds(buffer[..]);
    var s := Text(buffer);
    assert s == buffer[..|s|];
    forall i | 0 <= i < |s| ensures s[i] == buffer[i] != '\0' { assert s[i] in s; }
  }

  /** Reads a pair, its key from `k` on: whether there is one, whether its key is the one looked for, and
      where its value starts and ends; the value goes to `out`. */
  method ReadPair(buffer: array<char>, k: nat, key: string, out: array<char>)
    returns (read: bool, matches: bool, v: nat, end: nat)
    requires '\0' in buffer[..] && k <= |Text(buffer)| < BIG_INFO_STRING == out.Length && buffer != out
    modifies out
    ensures read <==> NextSlash(Text(buffer), k) < |Text(buffer)|
    ensures read ==> v == NextSlash(Text(buffer), k) + 1 && end == NextSlash(Text(buffer), v)
    ensures read ==> (matches <==> Text(buffer)[k..v - 1] == key) && out[..end - v] == Text(buffer)[v..end]
    ensures read ==> end < buffer.Length && buffer[end] == if end == |Text(buffer)| then '\0' else '\\'
  {
    hide CStr;
    hide NextSlash;
    TextEnds(buffer);
    ghost var s := Text(buffer);
    read, matches, v, end := false, false, 0, 0;
    var pkey := new char[BIG_INFO_STRING];
    var slash := CopyToSlash(buffer, k, pkey);
    if buffer[slash] == '\0' { return; }
    read, v := true, slash + 1;
    matches := pkey[..slash - k] == key;
    end := CopyToSlash(buffer, v, out);
  }

  method InfoValueForKey(buffer: array<char>, key: string) returns (value: string)
    requires '\0' in buffer[..]
    ensures value == if |Text(buffer)| >= BIG_INFO_STRING then "" else Get(Text(buffer), key)
  {
    hide CStr;
    hide Find;
    hide NextSlash;
    TextEnds(buffer);
    ghost var s := Text(buffer);
    var length := StrLen(buffer);
    if length >= BIG_INFO_STRING { return ""; }
    var text := new char[BIG_INFO_STRING];
    var info := 0;
    ghost var p := 0;
    if buffer[info] == '\\' { info := info + 1; }
    while true
      invariant p <= |s| && info == KeyStart(s, p) && Find(s, p, key) == Find(s, 0, key)
      decreases |s| - p
    {
      FindOpens(s, p, key);
      var read, matches, v, end := ReadPair(buffer, info, key, text);
      if !read { return ""; }
      if matches { return text[..end - v]; }
      if buffer[end] == '\0' { return ""; }
      p := end;
      info := end + 1;
    }
  }

  method InfoRemoveKey(buffer: array<char>, key: string)
    requires '\0' in buffer[..] && |Text(buffer)| < BIG_INFO_STRING
    modifies buffer
    ensures '\0' in buffer[..] && Text(buffer) == Removed(old(Text(buffer)), key)
  {
    hide CStr;
    hide Find;
    hide NextSlash;
    TextEnds(buffer);
    if '\\' in key { return; }
    ghost var s := Text(buffer);
    var value := new char[BIG_INFO_STRING];
    var info := 0;
    while true
      invariant 0 <= info <= |s| && buffer[..] == old(buffer[..]) && Find(s, info, key) == Find(s, 0, key)
      decreases |s| - info
    {
      FindOpens(s, info, key);
      var start := info;
      if buffer[info] == '\\' { info := info + 1; }
      var read, matches, v, end := ReadPair(buffer, info, key, value);
      if !read { return; }
      info := end;
      if matches {
        Move(buffer, start, info);
        return;
      }
      if buffer[info] == '\0' { return; }
    }
  }

  lemma Closed(before: seq<char>, after: seq<char>, to: nat, from: nat, n: nat)
    requires to <= from <= n < |before| == |after| && before[n] == '\0' && forall i :: 0 <= i < n ==> before[i] != '\0'
    requires forall i :: 0 <= i < to ==> after[i] == before[i]
    requires forall i :: to <= i <= to + n - from ==> after[i] == before[from - to + i]
    ensures '\0' in after && CStr(after) == before[..n][..to] + before[..n][from..]
  {
    hide CStr;
    var m := to + n - from;
    assert after[m] == '\0';
    CStrIs(after, m);
    assert after[..m] == before[..n][..to] + before[..n][from..];
  }

  /** memmove of the rest of the text, its NUL included. */
  method Move(buffer: array<char>, to: nat, from: nat)
    requires '\0' in buffer[..] && to <= from <= |Text(buffer)|
    modifies buffer
    ensures '\0' in buffer[..] && Text(buffer) == old(Text(buffer))[..to] + old(Text(buffer))[from..]
  {
    hide CStr;
    TextEnds(buffer);
    var n := StrLen(buffer);
    forall i | to <= i <= to + n - from { buffer[i] := buffer[from - to + i]; }
    Closed(old(buffer[..]), buffer[..], to, from, n);
  }

  lemma Overwritten(buffer: array<char>, text: string)
    requires |text| < buffer.Length && '\0' !in text && buffer[|text|] == '\0'
    requires forall i :: 0 <= i < |text| ==> buffer[i] == text[i]
    ensures '\0' in buffer[..] && Text(buffer) == text
  {
    hide CStr;
    assert buffer[..][..|text|] == text && buffer[..][|text|] == '\0';
    CStrIs(buffer[..], |text|);
  }

  lemma SetHasNoNul(s: string, key: string, value: string)
    requires '\0' !in s && '\0' !in key && '\0' !in value
    ensures '\0' !in Removed(s, key) && '\0' !in Cut(PairText(key, value)) &&
      |Cut(PairText(key, value))| < BIG_INFO_STRING
  {
    hide Find;
  }

  method Contains(text: string, c: char) returns (found: bool)
    ensures found <==> c in text
  {
    for i := 0 to |text|
      invariant c !in text[..i]
    {
      if text[i] == c { return true; }
    }
    assert text[..|text|] == text;
    found := false;
  }

  /** Sets in place what Set says. */
  method InfoSetValueForKey(buffer: array<char>, key: string, value: string)
    requires '\0' in buffer[..] && |Text(buffer)| < BIG_INFO_STRING && '\0' !in key && '\0' !in value
    requires |Set(Text(buffer), key, value)| < buffer.Length
    modifies buffer
    ensures '\0' in buffer[..] && Text(buffer) == Set(old(Text(buffer)), key, value)
  {
    hide CStr;
    hide Removed;
    hide PairText;
    hide Cut;
    TextEnds(buffer);
    ghost var s := Text(buffer);
    var blacklist := "\\;\"";
    for i := 0 to |blacklist|
      invariant buffer[..] == old(buffer[..])
      invariant forall j :: 0 <= j < i ==> blacklist[j] !in key && blacklist[j] !in value
    {
      var inKey := Contains(key, blacklist[i]);
      var inValue := Contains(value, blacklist[i]);
      if inKey || inValue { return; }
    }
    assert !Forbidden(key) && !Forbidden(value);
    InfoRemoveKey(buffer, key);
    if value == "" { return; }
    var newi := Cut(PairText(key, value));
    SetHasNoNul(s, key, value);
    var length := StrLen(buffer);
    if |newi| + length >= BIG_INFO_STRING { return; }
    TextEnds(buffer);
    newi := newi + buffer[..length];
    forall i | 0 <= i < |newi| { buffer[i] := newi[i]; }
    buffer[|newi|] := '\0';
    Overwritten(buffer, newi);
  }
}
