/** The command tokenizer: a text cut into tokens that are laid out, each with its NUL, in one buffer.
    A string is a C string without its NUL; its characters are bytes, compared as signed. */
module Tokenizer {
  import opened Common
  import opened Placing

  const MAX_STRING_TOKENS := 1024
  const BIG_INFO_STRING := 8192

  // ---- Scanning -----------------------------------------------------------

  /** The character at `p`; the NUL at the end. */
  function Peek(s: string, p: nat): char { if p < |s| then s[p] else '\0' }

  /** Above a space: a byte from 128 on is negative, so it is not. */
  predicate Visible(c: char) { ' ' < c < 128 as char }

  predicate Blank(c: char) { c != '\0' && !Visible(c) }

  function SkipBlanks(s: string, p: nat): (r: nat)
    requires p <= |s|
    ensures p <= r <= |s| && (r < |s| ==> !Blank(s[r]))
    decreases |s| - p
  {
    if p < |s| && Blank(s[p]) then SkipBlanks(s, p + 1) else p
  }

  predicate LineComment(s: string, p: nat) { Peek(s, p) == '/' && Peek(s, p + 1) == '/' }

  predicate BlockComment(s: string, p: nat) { Peek(s, p) == '/' && Peek(s, p + 1) == '*' }

  /** Where the next closing of a block comment starts, or the end. */
  function CommentEnd(s: string, p: nat): (r: nat)
    requires p <= |s|
    ensures p <= r <= |s| && (r < |s| ==> r + 2 <= |s|)
    decreases |s| - p
  {
    if p == |s| || (s[p] == '*' && Peek(s, p + 1) == '/') then p else CommentEnd(s, p + 1)
  }

  /** Where the next token starts, blanks and comments skipped; None when there is none. */
  function TokenStart(s: string, p: nat): (r: Option<nat>)
    requires p <= |s| && '\0' !in s
    ensures r.Some? ==> p <= r.value < |s| && Visible(s[r.value])
    ensures r.Some? ==> !LineComment(s, r.value) && !BlockComment(s, r.value)
    decreases |s| - p
  {
    var q := SkipBlanks(s, p);
    if q == |s| || LineComment(s, q) then None
    else if BlockComment(s, q) then
      var e := CommentEnd(s, q);
      if e == |s| then None else TokenStart(s, e + 2)
    else
      assert s[q] in s;
      Some(q)
  }

  function QuoteEnd(s: string, p: nat): (r: nat)
    requires p <= |s|
    ensures p <= r <= |s|
    decreases |s| - p
  {
    if p == |s| || s[p] == '"' then p else QuoteEnd(s, p + 1)
  }

  /** Whether a word goes on at `p`. */
  predicate InWord(s: string, p: nat, ignoreQuotes: bool)
  {
    Visible(Peek(s, p)) && (ignoreQuotes || Peek(s, p) != '"') && !LineComment(s, p) && !BlockComment(s, p)
  }

  function WordEnd(s: string, p: nat, ignoreQuotes: bool): (r: nat)
    requires p <= |s|
    ensures p <= r <= |s| && (p < |s| && InWord(s, p, ignoreQuotes) ==> p < r)
    decreases |s| - p
  {
    if p < |s| && InWord(s, p, ignoreQuotes) then WordEnd(s, p + 1, ignoreQuotes) else p
  }

  /** A token at `q`: its text and where scanning goes on, or None at the end of the text. */
  function TokenAt(s: string, q: nat, ignoreQuotes: bool): (r: (string, Option<nat>))
    requires q < |s|
    ensures |r.0| <= |s| - q
    ensures r.1.Some? ==> q + |r.0| <= r.1.value <= |s|
    ensures r.1.Some? && Visible(s[q]) && !LineComment(s, q) && !BlockComment(s, q) ==> q < r.1.value
  {
    if !ignoreQuotes && s[q] == '"' then
      var e := QuoteEnd(s, q + 1);
      (s[q + 1..e], if e == |s| then None else Some(e + 1))
    else
      var e := WordEnd(s, q, ignoreQuotes);
      (s[q..e], if e == |s| then None else Some(e))
  }

  /** The tokens from `p` on, `n` having been found before: never more than there is room for. */
  function Tokens(s: string, p: nat, n: nat, ignoreQuotes: bool): (r: seq<string>)
    requires p <= |s| && '\0' !in s && n <= MAX_STRING_TOKENS
    ensures n + |r| <= MAX_STRING_TOKENS
    decreases |s| - p
  {
    if n == MAX_STRING_TOKENS then []
    else match TokenStart(s, p)
      case None => []
      case Some(q) =>
        var (text, next) := TokenAt(s, q, ignoreQuotes);
        if next == None then [text] else [text] + Tokens(s, next.value, n + 1, ignoreQuotes)
  }

  // ---- Spelling -----------------------------------------------------------

  /** A token spelled in quotes or as a word; before it a gap of blanks and block comments. */
  datatype Arg = Arg(gap: seq<string>, quoted: bool, text: string)

  /** A byte up to a space, or from 128 on. */
  predicate BlankByte(c: char) { 0 < c as int <= 32 || 128 <= c as int }

  /** A block comment: its closing mark is at its end, and nowhere before. */
  predicate Block(c: string)
  {
    && |c| >= 3 && c[0] == '/' && c[1] == '*' && c[|c| - 2] == '*' && c[|c| - 1] == '/' && '\0' !in c
    && forall i :: 0 <= i < |c| - 2 && c[i] == '*' ==> c[i + 1] != '/'
  }

  predicate GoodGap(gap: seq<string>)
  {
    forall i :: 0 <= i < |gap| ==> Block(gap[i]) || (|gap[i]| == 1 && BlankByte(gap[i][0]))
  }

  /** Visible characters, quotes only where they are ignored, and no comment mark. */
  predicate Word(t: string, ignoreQuotes: bool)
  {
    && t != "" && (forall i :: 0 <= i < |t| ==> 32 < t[i] as int < 128 && (ignoreQuotes || t[i] != '"'))
    && forall i :: 0 <= i < |t| - 1 && t[i] == '/' ==> t[i + 1] != '/' && t[i + 1] != '*'
  }

  predicate GoodArg(a: Arg, ignoreQuotes: bool)
  {
    && GoodGap(a.gap)
    && (if a.quoted then !ignoreQuotes && '"' !in a.text && '\0' !in a.text else Word(a.text, ignoreQuotes))
  }

  predicate CommentStarts(s: string) { |s| > 1 && s[0] == '/' && (s[1] == '/' || s[1] == '*') }

  /** What can stand behind a word: nothing, a blank, a quote, or a comment that the word does not run into. */
  predicate EndsWord(word: string, next: string, ignoreQuotes: bool)
    requires word != ""
  {
    next == "" || BlankByte(next[0]) || (!ignoreQuotes && next[0] == '"') ||
    (CommentStarts(next) && word[|word| - 1] != '/')
  }

  predicate GoodArgs(args: seq<Arg>, tail: string, ignoreQuotes: bool)
  {
    forall i :: 0 <= i < |args| ==>
      && GoodArg(args[i], ignoreQuotes)
      && (!args[i].quoted ==> EndsWord(args[i].text, Spell(args[i + 1..]) + tail, ignoreQuotes))
  }

  /** What may end a text behind its last gap: nothing, a line comment, or a block comment never closed. */
  predicate GoodRest(rest: string)
  {
    && '\0' !in rest
    && (rest == "" ||
        (CommentStarts(rest) &&
         (rest[1] == '*' ==> forall i :: 0 <= i < |rest| - 1 && rest[i] == '*' ==> rest[i + 1] != '/')))
  }

  function Join(gap: seq<string>): string
  {
    if gap == [] then "" else gap[0] + Join(gap[1..])
  }

  function Body(a: Arg): string { if a.quoted then "\"" + (a.text + "\"") else a.text }

  function Spell(args: seq<Arg>): string
  {
    if args == [] then "" else Join(args[0].gap) + (Body(args[0]) + Spell(args[1..]))
  }

  function Texts(args: seq<Arg>): (r: seq<string>)
    ensures |r| == |args| && forall i :: 0 <= i < |args| ==> r[i] == args[i].text
  {
    if args == [] then [] else [args[0].text] + Texts(args[1..])
  }

  // ---- Gaps ---------------------------------------------------------------

  lemma Bytes(c: char)
    ensures Blank(c) <==> BlankByte(c)
    ensures Visible(c) <==> 32 < c as int < 128
  {
  }

  /** The closing mark of a block comment is found. */
  lemma {:induction false} CommentCloses(s: string, q: nat, c: string, i: nat)
    requires At(s, q, c) && Block(c) && i <= |c| - 2
    ensures CommentEnd(s, q + i) == q + |c| - 2 && q + |c| <= |s|
    decreases |c| - i
  {
    AtChar(s, q, c, i);
    AtChar(s, q, c, i + 1);
    if i < |c| - 2 { CommentCloses(s, q, c, i + 1); }
  }

  lemma {:induction false} NeverCloses(s: string, q: nat, i: nat)
    requires q <= |s| && GoodRest(s[q..]) && q + 1 < |s| && s[q + 1] == '*' && i <= |s| - q
    ensures CommentEnd(s, q + i) == |s|
    decreases |s| - q - i
  {
    var rest := s[q..];
    if i < |rest| {
      assert rest[i] == s[q + i] && (i + 1 < |rest| ==> rest[i + 1] == s[q + i + 1]);
      NeverCloses(s, q, i + 1);
    }
  }

  /** A blank or a comment makes no difference to where the next token starts. */
  lemma OneSkipped(s: string, p: nat, c: string)
    requires At(s, p, c) && '\0' !in s && (Block(c) || (|c| == 1 && BlankByte(c[0])))
    ensures p + |c| <= |s| && TokenStart(s, p) == TokenStart(s, p + |c|)
  {
    AtChar(s, p, c, 0);
    Bytes(c[0]);
    StartTurn(s, p);
    StartTurn(s, p + |c|);
    if Block(c) {
      AtChar(s, p, c, 1);
      CommentCloses(s, p, c, 0);
    }
  }

  lemma {:induction false} GapSkipped(s: string, p: nat, gap: seq<string>)
    requires At(s, p, Join(gap)) && GoodGap(gap) && '\0' !in s
    ensures p + |Join(gap)| <= |s| && TokenStart(s, p) == TokenStart(s, p + |Join(gap)|)
    decreases |gap|
  {
    hide TokenStart;
    hide Block;
    if gap != [] {
      AtSplit(s, p, gap[0], Join(gap[1..]));
      OneSkipped(s, p, gap[0]);
      GapSkipped(s, p + |gap[0]|, gap[1..]);
    }
  }

  /** Nothing is found in what may end a text. */
  lemma NoTokenInRest(s: string, q: nat)
    requires q <= |s| && GoodRest(s[q..]) && '\0' !in s
    ensures TokenStart(s, q) == None
  {
    var rest := s[q..];
    if rest != "" {
      assert rest[0] == s[q] && rest[1] == s[q + 1];
      if rest[1] == '*' { NeverCloses(s, q, 0); }
    }
  }

  // ---- Tokens -------------------------------------------------------------

  lemma {:induction false} QuoteEnds(s: string, p: nat, text: string)
    requires At(s, p, text) && '"' !in text && p + |text| < |s| && s[p + |text|] == '"'
    ensures QuoteEnd(s, p) == p + |text|
    decreases |text|
  {
    if text != [] {
      AtRest(s, p, text);
      QuoteEnds(s, p + 1, text[1..]);
    }
  }

  lemma QuotedReads(s: string, q: nat, text: string)
    requires At(s, q, "\"" + (text + "\"")) && '"' !in text
    ensures q < |s| && s[q] == '"' && q + |text| + 2 <= |s| && TokenAt(s, q, false) == (text, Some(q + |text| + 2))
  {
    AtSplit(s, q, "\"", text + "\"");
    AtRest(s, q, "\"");
    AtSplit(s, q + 1, text, "\"");
    AtRest(s, q + 1 + |text|, "\"");
    AtSlice(s, q + 1, text);
    QuoteEnds(s, q + 1, text);
  }

  /** Behind a word the text goes on with something that ends it. */
  ghost predicate EndsAt(s: string, end: nat, word: string, ignoreQuotes: bool)
    requires word != "" && end <= |s|
  {
    EndsWord(word, s[end..], ignoreQuotes)
  }

  lemma WordStops(s: string, end: nat, word: string, ignoreQuotes: bool)
    requires word != "" && end <= |s| && EndsAt(s, end, word, ignoreQuotes)
    ensures !(end < |s| && InWord(s, end, ignoreQuotes))
    ensures word[|word| - 1] == '/' ==> Peek(s, end) != '/' && Peek(s, end) != '*'
  {
    if end < |s| {
      var next := s[end..];
      assert next[0] == s[end] && (|next| > 1 ==> next[1] == s[end + 1]);
      Bytes(next[0]);
    }
  }

  lemma {:induction false} WordEnds(s: string, p: nat, t: string, i: nat, ignoreQuotes: bool)
    requires At(s, p, t) && Word(t, ignoreQuotes) && i <= |t| && EndsAt(s, p + |t|, t, ignoreQuotes)
    ensures WordEnd(s, p + i, ignoreQuotes) == p + |t|
    ensures i < |t| ==> InWord(s, p + i, ignoreQuotes) && !LineComment(s, p + i) && !BlockComment(s, p + i)
    decreases |t| - i
  {
    WordStops(s, p + |t|, t, ignoreQuotes);
    if i < |t| {
      AtChar(s, p, t, i);
      if i + 1 < |t| { AtChar(s, p, t, i + 1); }
      Bytes(t[i]);
      WordEnds(s, p, t, i + 1, ignoreQuotes);
    }
  }

  lemma WordReads(s: string, q: nat, text: string, ignoreQuotes: bool)
    requires At(s, q, text) && Word(text, ignoreQuotes) && EndsAt(s, q + |text|, text, ignoreQuotes)
    ensures q < |s| && Visible(s[q]) && !LineComment(s, q) && !BlockComment(s, q) && q + |text| <= |s|
    ensures TokenAt(s, q, ignoreQuotes) == (text, if q + |text| == |s| then None else Some(q + |text|))
  {
    AtRest(s, q, text);
    AtSlice(s, q, text);
    WordEnds(s, q, text, 0, ignoreQuotes);
    assert InWord(s, q + 0, ignoreQuotes);
  }

  lemma StartsHere(s: string, q: nat)
    requires q < |s| && Visible(s[q]) && !LineComment(s, q) && !BlockComment(s, q) && '\0' !in s
    ensures TokenStart(s, q) == Some(q)
  {
  }

  /** The next spelled token is read as its text, and reading goes on behind it. */
  lemma ArgReads(s: string, p: nat, a: Arg, rest: string, ignoreQuotes: bool) returns (q: nat, end: nat)
    requires At(s, p, Join(a.gap) + (Body(a) + rest)) && |s| == p + |Join(a.gap) + (Body(a) + rest)| && '\0' !in s
    requires GoodArg(a, ignoreQuotes) && (!a.quoted ==> EndsWord(a.text, rest, ignoreQuotes))
    ensures p <= q < end <= |s| && At(s, end, rest) && |s| == end + |rest|
    ensures TokenStart(s, p) == Some(q)
    ensures TokenAt(s, q, ignoreQuotes) == (a.text, if !a.quoted && end == |s| then None else Some(end))
  {
    hide *;
    ArgParts(a, ignoreQuotes);
    q, end := p + |Join(a.gap)|, p + |Join(a.gap)| + |Body(a)|;
    ThreeParts(s, p, Join(a.gap), Body(a), rest);
    if a.quoted {
      QuotedReads(s, q, a.text);
      QuoteStarts(s, q);
    } else {
      EndsThere(s, end, a.text, rest, ignoreQuotes);
      WordReads(s, q, a.text, ignoreQuotes);
    }
    GapSkipped(s, p, a.gap);
    StartsHere(s, q);
  }

  lemma ThreeParts(s: string, p: nat, a: string, b: string, c: string)
    requires At(s, p, a + (b + c)) && |s| == p + |a + (b + c)|
    ensures At(s, p, a) && At(s, p + |a|, b) && At(s, p + |a| + |b|, c)
    ensures |s| == p + |a| + |b| + |c| && s[p + |a| + |b|..] == c
  {
    hide At;
    AtSplit(s, p, a, b + c);
    AtSplit(s, p + |a|, b, c);
    AtSlice(s, p + |a| + |b|, c);
  }

  lemma ArgParts(a: Arg, ignoreQuotes: bool)
    requires GoodArg(a, ignoreQuotes)
    ensures GoodGap(a.gap) && Body(a) == if a.quoted then "\"" + (a.text + "\"") else a.text
    ensures if a.quoted then !ignoreQuotes && '"' !in a.text else Word(a.text, ignoreQuotes) && a.text != ""
  {
    hide GoodGap;
  }

  lemma QuoteStarts(s: string, q: nat)
    requires q < |s| && s[q] == '"'
    ensures Visible(s[q]) && !LineComment(s, q) && !BlockComment(s, q)
  {
  }

  lemma EndsThere(s: string, end: nat, word: string, rest: string, ignoreQuotes: bool)
    requires word != "" && end <= |s| && s[end..] == rest && EndsWord(word, rest, ignoreQuotes)
    ensures EndsAt(s, end, word, ignoreQuotes)
  {
  }

  function Fewer(a: nat, b: nat): nat { if a < b then a else b }

  lemma SpellOne(args: seq<Arg>, i: nat, tail: string)
    requires i < |args|
    ensures Spell(args[i..]) + tail == Join(args[i].gap) + (Body(args[i]) + (Spell(args[i + 1..]) + tail))
    ensures Texts(args[i..]) == [args[i].text] + Texts(args[i + 1..])
  {
    hide Body;
    hide Join;
    assert args[i..][0] == args[i] && args[i..][1..] == args[i + 1..];
  }

  lemma {:induction false} SpelledFrom(s: string, p: nat, args: seq<Arg>, i: nat, n: nat, gap: seq<string>,
    rest: string, ignoreQuotes: bool)
    requires GoodArgs(args, Join(gap) + rest, ignoreQuotes) && GoodGap(gap) && GoodRest(rest) && '\0' !in s
    requires i <= |args| && n <= MAX_STRING_TOKENS
    requires At(s, p, Spell(args[i..]) + (Join(gap) + rest)) && |s| == p + |Spell(args[i..]) + (Join(gap) + rest)|
    ensures Tokens(s, p, n, ignoreQuotes) == Texts(args[i..])[..Fewer(|args| - i, MAX_STRING_TOKENS - n)]
    decreases |args| - i
  {
    hide *;
    var tail := Join(gap) + rest;
    TokensTurn(s, p, n, ignoreQuotes);
    FewerIs(|args| - i, MAX_STRING_TOKENS - n);
    if i == |args| {
      NothingSpelled(args, tail);
      AtSplit(s, p, Join(gap), rest);
      AtSlice(s, p + |Join(gap)|, rest);
      GapSkipped(s, p, gap);
      assert s[p + |Join(gap)|..] == rest;
      NoTokenInRest(s, p + |Join(gap)|);
    } else if n < MAX_STRING_TOKENS {
      SpellOne(args, i, tail);
      ArgIsGood(args, i, tail, ignoreQuotes);
      var q, end := ArgReads(s, p, args[i], Spell(args[i + 1..]) + tail, ignoreQuotes);
      SpelledFrom(s, end, args, i + 1, n + 1, gap, rest, ignoreQuotes);
      FewerIs(|args| - i - 1, MAX_STRING_TOKENS - n - 1);
      if end == |s| { NothingAtEnd(s); TokensTurn(s, end, n + 1, ignoreQuotes); }
      OneMoreTaken(args[i].text, Texts(args[i + 1..]), Fewer(|args| - i - 1, MAX_STRING_TOKENS - n - 1));
    }
  }

  lemma OneMoreTaken(text: string, more: seq<string>, k: nat)
    requires k <= |more|
    ensures ([text] + more)[..k + 1] == [text] + more[..k]
  {
  }

  lemma FewerIs(a: nat, b: nat)
    ensures Fewer(a, b) == if a < b then a else b
  {
  }

  lemma NothingSpelled(args: seq<Arg>, tail: string)
    ensures Spell(args[|args|..]) + tail == tail && Texts(args[|args|..]) == []
  {
  }

  lemma ArgIsGood(args: seq<Arg>, i: nat, tail: string, ignoreQuotes: bool)
    requires GoodArgs(args, tail, ignoreQuotes) && i < |args|
    ensures GoodArg(args[i], ignoreQuotes)
    ensures !args[i].quoted ==>
      args[i].text != "" && EndsWord(args[i].text, Spell(args[i + 1..]) + tail, ignoreQuotes)
  {
    hide Spell;
    hide EndsWord;
  }

  lemma NothingAtEnd(s: string)
    requires '\0' !in s
    ensures TokenStart(s, |s|) == None
  {
  }

  lemma {:induction false} GapWithoutNul(gap: seq<string>)
    requires GoodGap(gap)
    ensures '\0' !in Join(gap)
  {
    if gap != [] { GapWithoutNul(gap[1..]); }
  }

  lemma {:induction false} SpelledWithoutNul(args: seq<Arg>, ignoreQuotes: bool)
    requires forall i :: 0 <= i < |args| ==> GoodArg(args[i], ignoreQuotes)
    ensures '\0' !in Spell(args)
  {
    if args != [] {
      assert GoodArg(args[0], ignoreQuotes);
      GapWithoutNul(args[0].gap);
      SpelledWithoutNul(args[1..], ignoreQuotes);
    }
  }

  /** Tokens spelled in quotes or as words, with blanks and closed block comments between, are read back:
      all of them, or the first 1024; a line comment, or a block comment never closed, ends the text. */
  lemma SpelledReads(args: seq<Arg>, gap: seq<string>, rest: string, ignoreQuotes: bool)
    requires GoodArgs(args, Join(gap) + rest, ignoreQuotes) && GoodGap(gap) && GoodRest(rest)
    ensures var s := Spell(args) + (Join(gap) + rest);
      '\0' !in s && Tokens(s, 0, 0, ignoreQuotes) == Texts(args)[..Fewer(|args|, 1024)]
  {
    SpelledWithoutNul(args, ignoreQuotes);
    GapWithoutNul(gap);
    var s := Spell(args) + (Join(gap) + rest);
    assert s[0..0 + |s|] == s;
    assert args[0..] == args;
    SpelledFrom(s, 0, args, 0, 0, gap, rest, ignoreQuotes);
  }

  function Quoted(texts: seq<string>): seq<Arg>
  {
    seq(|texts|, i requires 0 <= i < |texts| => Arg(if i == 0 then [] else [" "], true, texts[i]))
  }

  /** Any texts without quotes and NULs, empty ones and comment markers included, survive being quoted and
      joined with spaces. */
  lemma QuotedTextsRead(texts: seq<string>)
    requires |texts| <= 1024 && forall t :: t in texts ==> '"' !in t && '\0' !in t
    ensures '\0' !in Spell(Quoted(texts)) && Tokens(Spell(Quoted(texts)), 0, 0, false) == texts
  {
    var args := Quoted(texts);
    forall i | 0 <= i < |args| ensures GoodArg(args[i], false) { assert texts[i] in texts; }
    assert GoodArgs(args, Join([]) + "", false);
    SpelledReads(args, [], "", false);
    assert Spell(args) + (Join([]) + "") == Spell(args);
    assert Texts(args) == texts;
  }

  // ---- The buffer ---------------------------------------------------------

  /** Each text stands at its place with a NUL after it, below `top`. */
  ghost predicate LaidOut(buffer: seq<char>, places: seq<nat>, texts: seq<string>, top: nat)
  {
    && |places| == |texts| && top <= |buffer|
    && forall i :: 0 <= i < |texts| ==>
      && places[i] + |texts[i]| < top
      && buffer[places[i]..places[i] + |texts[i]|] == texts[i] && buffer[places[i] + |texts[i]|] == '\0'
  }

  predicate NulFree(texts: seq<string>)
  {
    forall t :: t in texts ==> '\0' !in t
  }

  lemma NulFreeMore(texts: seq<string>, text: string)
    requires NulFree(texts) && '\0' !in text
    ensures NulFree(texts + [text])
  {
  }

  class StringTokenizer {
    var argc: nat
    /** Where each token starts in `tokenized`. */
    var argv: seq<nat>
    const tokenized: array<char>
    const source: array<char>
    ghost var tokens: seq<string>

    ghost predicate Valid()
      reads this, tokenized
    {
      && tokenized.Length == BIG_INFO_STRING + MAX_STRING_TOKENS && source.Length == BIG_INFO_STRING &&
        tokenized != source
      && argc == |argv| <= MAX_STRING_TOKENS && LaidOut(tokenized[..], argv, tokens, tokenized.Length)
      && NulFree(tokens)
    }

    constructor ()
      ensures Valid() && argc == 0 && fresh(tokenized) && fresh(source)
    {
      argc, argv, tokens := 0, [], [];
      tokenized := new char[BIG_INFO_STRING + MAX_STRING_TOKENS];
      source := new char[BIG_INFO_STRING];
    }

    /** The text at a token's place, up to its NUL; empty beyond the last token. */
    method Argv(index: int) returns (text: string)
      requires Valid()
      ensures text == if 0 <= index < argc then tokens[index] else ""
    {
      if index < 0 || index >= argc { return ""; }
      var from, to := argv[index], argv[index];
      ghost var t := tokens[index];
      assert tokenized[..][from..from + |t|] == t && t in tokens;
      assert forall j :: 0 <= j < |t| ==> tokenized[from + j] == t[j] != '\0';
      while tokenized[to] != '\0'
        invariant from <= to <= from + |t|
        decreases from + |t| - to
      {
        assert to < from + |t|;
        to := to + 1;
      }
      text := tokenized[from..to];
    }

    /** The source buffer holds the text, and NULs behind it. */
    ghost predicate Holds(s: string)
      reads this, source
    {
      && source.Length == BIG_INFO_STRING > |s| && '\0' !in s
      && forall i :: 0 <= i < source.Length ==> source[i] == Peek(s, i)
    }

    /** strncpy: the text, then NULs. */
    method Copy(s: string)
      requires source.Length == BIG_INFO_STRING > |s| && '\0' !in s
      modifies source
      ensures Holds(s)
    {
      forall i | 0 <= i < source.Length { source[i] := if i < |s| then s[i] else '\0'; }
    }

    /** Skips blanks and comments up to the next token. */
    method SkipToToken(from: nat, ghost s: string) returns (found: bool, text: nat)
      requires Holds(s) && from <= |s|
      ensures found <==> TokenStart(s, from).Some?
      ensures found ==> text == TokenStart(s, from).value
    {
      hide CommentEnd;
      text := from;
      while true
        invariant text <= |s| && TokenStart(s, text) == TokenStart(s, from)
        decreases |s| - text
      {
        ghost var p := text;
        while Blank(source[text])
          invariant p <= text <= |s| && SkipBlanks(s, text) == SkipBlanks(s, p)
          decreases |s| - text
        {
          text := text + 1;
        }
        StartTurn(s, p);
        if source[text] == '\0' { assert text == |s|; return false, text; }
        if source[text] == '/' && source[text + 1] == '/' { return false, text; }
        if !(source[text] == '/' && source[text + 1] == '*') { return true, text; }
        text := SkipComment(text, s);
        if source[text] == '\0' { return false, text; }
        text := text + 2;
      }
    }

    method SkipComment(from: nat, ghost s: string) returns (text: nat)
      requires Holds(s) && from <= |s|
      ensures text == CommentEnd(s, from)
    {
      text := from;
      while source[text] != '\0' && (source[text] != '*' || source[text + 1] != '/')
        invariant from <= text <= |s| && CommentEnd(s, text) == CommentEnd(s, from)
        decreases |s| - text
      {
        text := text + 1;
      }
      assert text < |s| ==> s[text] in s;
    }

    /** Copies a quoted token's inside. */
    method ReadQuoted(from: nat, out: nat, ghost s: string) returns (text: nat)
      requires Holds(s) && from <= |s| && tokenized != source && out + |s| - from <= tokenized.Length
      modifies tokenized
      ensures Holds(s) && text == QuoteEnd(s, from) && tokenized[out..out + text - from] == s[from..text]
      ensures forall i :: 0 <= i < tokenized.Length && !(out <= i < out + text - from) ==>
        tokenized[i] == old(tokenized[i])
    {
      text := from;
      while source[text] != '\0' && source[text] != '"'
        invariant from <= text <= |s| && QuoteEnd(s, text) == QuoteEnd(s, from)
        invariant Holds(s) && tokenized[out..out + text - from] == s[from..text]
        invariant forall i :: 0 <= i < tokenized.Length && !(out <= i < out + text - from) ==>
          tokenized[i] == old(tokenized[i])
        decreases |s| - text
      {
        ghost var done := tokenized[out..out + text - from];
        tokenized[out + text - from] := source[text];
        text := text + 1;
        assert tokenized[out..out + text - from] == done + [s[text - 1]];
      }
      assert text < |s| ==> s[text] in s;
    }

    /** Copies a word. */
    method ReadWord(from: nat, out: nat, ignoreQuotes: bool, ghost s: string) returns (text: nat)
      requires Holds(s) && from <= |s| && tokenized != source && out + |s| - from <= tokenized.Length
      modifies tokenized
      ensures Holds(s) && text == WordEnd(s, from, ignoreQuotes) && tokenized[out..out + text - from] == s[from..text]
      ensures forall i :: 0 <= i < tokenized.Length && !(out <= i < out + text - from) ==>
        tokenized[i] == old(tokenized[i])
    {
      text := from;
      while Visible(source[text])
        invariant from <= text <= |s| && WordEnd(s, text, ignoreQuotes) == WordEnd(s, from, ignoreQuotes)
        invariant Holds(s) && tokenized[out..out + text - from] == s[from..text]
        invariant forall i :: 0 <= i < tokenized.Length && !(out <= i < out + text - from) ==>
          tokenized[i] == old(tokenized[i])
        decreases |s| - text
      {
        if !ignoreQuotes && source[text] == '"' { break; }
        if source[text] == '/' && source[text + 1] == '/' { break; }
        if source[text] == '/' && source[text + 1] == '*' { break; }
        ghost var done := tokenized[out..out + text - from];
        tokenized[out + text - from] := source[text];
        text := text + 1;
        assert tokenized[out..out + text - from] == done + [s[text - 1]];
      }
    }

    /** Splits a text shorter than the source buffer: the tokens are laid out one after the other, and what
        is written is no more than what was read plus a NUL for each token, so it fits. */
    method SetNewSourceString(src: Option<string>, ignoreQuotes: bool) returns (ghost written: nat)
      requires Valid() && (src.Some? ==> |src.value| < BIG_INFO_STRING && '\0' !in src.value)
      modifies this, tokenized, source
      ensures Valid()
      ensures tokens == if src.Some? then Tokens(src.value, 0, 0, ignoreQuotes) else []
      ensures written <= (if src.Some? then |src.value| else 0) + argc <= tokenized.Length
      ensures LaidOut(tokenized[..], argv, tokens, written)
    {
      hide Tokens;
      argc, argv, tokens, written := 0, [], [], 0;
      assert LaidOut(tokenized[..], argv, tokens, 0) && LaidOut(tokenized[..], argv, tokens, tokenized.Length);
      if src == None { return; }
      Copy(src.value);
      assert [] + Tokens(src.value, 0, 0, ignoreQuotes) == Tokens(src.value, 0, 0, ignoreQuotes);
      written := Split(src.value, ignoreQuotes);
      LaidOutBelow(tokenized[..], argv, tokens, written, tokenized.Length);
    }

    /** The tokens read so far, laid out below `out`, and those from `text` on make up all; `out` has not
        run further ahead than a NUL for each token. */
    ghost predicate Splitting(s: string, ignoreQuotes: bool, text: nat, out: nat)
      reads this, tokenized, source
    {
      && Holds(s) && tokenized.Length == BIG_INFO_STRING + MAX_STRING_TOKENS && tokenized != source
      && argc == |argv| == |tokens| <= MAX_STRING_TOKENS && text <= |s| && out <= text + argc
      && LaidOut(tokenized[..], argv, tokens, out) && NulFree(tokens)
      && tokens + Tokens(s, text, argc, ignoreQuotes) == Tokens(s, 0, 0, ignoreQuotes)
    }

    /** The outer loop: one token after the other, up to the end of the text or of the room for tokens. */
    method Split(s: string, ignoreQuotes: bool) returns (ghost written: nat)
      requires Splitting(s, ignoreQuotes, 0, 0)
      modifies this`argc, this`argv, this`tokens, tokenized
      ensures Splitting(s, ignoreQuotes, |s|, written) && tokens == Tokens(s, 0, 0, ignoreQuotes)
    {
      TextHeld(s);
      assert 0 <= MAX_STRING_TOKENS;
      hide *;
      var text: nat, out: nat := 0, 0;
      var ended := false;
      while !ended
        invariant Splitting(s, ignoreQuotes, if ended then |s| else text, out) && text <= |s|
        invariant ended ==> tokens == Tokens(s, 0, 0, ignoreQuotes)
        decreases !ended, |s| - text
      {
        ended, text, out := Advance(text, out, ignoreQuotes, s);
      }
      return out;
    }

    /** One turn: the next token, or the end. */
    method Advance(from: nat, out: nat, ignoreQuotes: bool, ghost s: string)
      returns (ended: bool, text: nat, next: nat)
      requires Splitting(s, ignoreQuotes, from, out) && from <= |s|
      modifies this`argc, this`argv, this`tokens, tokenized
      ensures Splitting(s, ignoreQuotes, if ended then |s| else text, next) && text <= |s|
      ensures if ended then tokens == Tokens(s, 0, 0, ignoreQuotes) else from < text
    {
      hide Tokens;
      hide TokenAt;
      hide TokenStart;
      hide LaidOut;
      hide NulFree;
      hide Holds;
      TextHeld(s);
      TokensTurn(s, from, argc, ignoreQuotes);
      ended, text, next := true, from, out;
      if argc == MAX_STRING_TOKENS {
        NoneAtEnd(s, argc, ignoreQuotes);
        return;
      }
      var found;
      found, text := SkipToToken(from, s);
      if !found {
        text := from;
        NoneAtEnd(s, argc, ignoreQuotes);
        return;
      }
      ghost var before, all := tokens, Tokens(s, 0, 0, ignoreQuotes);
      ghost var token := TokenAt(s, text, ignoreQuotes).0;
      ended, text, next := TakeToken(text, out, ignoreQuotes, s);
      if ended {
        NoneAtEnd(s, argc, ignoreQuotes);
      } else {
        Regrouped(before, token, Tokens(s, text, argc, ignoreQuotes));
      }
    }

    lemma TextHeld(s: string)
      requires Holds(s)
      ensures |s| < BIG_INFO_STRING && '\0' !in s
    {
    }

    /** One token: its place is noted, its text copied and closed with a NUL. */
    method TakeToken(from: nat, out: nat, ignoreQuotes: bool, ghost s: string)
      returns (ended: bool, text: nat, next: nat)
      requires Holds(s) && tokenized.Length == BIG_INFO_STRING + MAX_STRING_TOKENS && tokenized != source
      requires argc == |argv| == |tokens| < MAX_STRING_TOKENS && from < |s| && out <= from + argc
      requires LaidOut(tokenized[..], argv, tokens, out) && NulFree(tokens)
      modifies this`argc, this`argv, this`tokens, tokenized
      ensures Holds(s) && argc == old(argc) + 1 == |argv| && text <= |s| && next <= text + argc
      ensures tokens == old(tokens) + [TokenAt(s, from, ignoreQuotes).0] && NulFree(tokens)
      ensures LaidOut(tokenized[..], argv, tokens, next)
      ensures TokenAt(s, from, ignoreQuotes).1 == if ended then None else Some(text)
    {
      hide LaidOut;
      hide NulFree;
      hide QuoteEnd;
      hide WordEnd;
      ghost var was := tokenized[..];
      argv := argv + [out];
      argc := argc + 1;
      var start := from;
      if !ignoreQuotes && source[from] == '"' {
        start := from + 1;
        text := ReadQuoted(start, out, s);
      } else {
        text := ReadWord(start, out, ignoreQuotes, s);
      }
      next := out + text - start;
      tokenized[next] := '\0';
      next := next + 1;
      assert '\0' !in s[start..text];
      StillLaidOut(was, tokenized[..], old(argv), tokens, out, s[start..text], next);
      NulFreeMore(tokens, s[start..text]);
      tokens := tokens + [s[start..text]];
      ended := source[text] == '\0';
      if !ended && start != from { text := text + 1; }
    }
  }

  lemma Regrouped(a: seq<string>, x: string, b: seq<string>)
    ensures a + ([x] + b) == a + [x] + b
  {
  }

  lemma LaidOutBelow(buffer: seq<char>, places: seq<nat>, texts: seq<string>, top: nat, higher: nat)
    requires LaidOut(buffer, places, texts, top) && top <= higher <= |buffer|
    ensures LaidOut(buffer, places, texts, higher)
  {
  }

  lemma StillLaidOut(was: seq<char>, now: seq<char>, places: seq<nat>, texts: seq<string>, out: nat, text: string,
    top: nat)
    requires LaidOut(was, places, texts, out) && |was| == |now| && out + |text| + 1 == top <= |now|
    requires forall i :: 0 <= i < out ==> now[i] == was[i]
    requires now[out..out + |text|] == text && now[out + |text|] == '\0'
    ensures LaidOut(now, places + [out], texts + [text], top)
  {
    forall i | 0 <= i < |texts|
      ensures now[places[i]..places[i] + |texts[i]|] == texts[i] && now[places[i] + |texts[i]|] == '\0'
    {
      assert was[places[i]..places[i] + |texts[i]|] == texts[i];
    }
  }

  lemma StartTurn(s: string, p: nat)
    requires p <= |s| && '\0' !in s
    ensures var q := SkipBlanks(s, p);
      TokenStart(s, p) ==
        if q == |s| || LineComment(s, q) then None
        else if BlockComment(s, q) then
          (var e := CommentEnd(s, q); if e == |s| then None else TokenStart(s, e + 2))
        else Some(q)
  {
    hide CommentEnd;
    hide SkipBlanks;
  }

  lemma NoneAtEnd(s: string, n: nat, ignoreQuotes: bool)
    requires '\0' !in s && n <= MAX_STRING_TOKENS
    ensures forall before: seq<string> :: before + Tokens(s, |s|, n, ignoreQuotes) == before
  {
    NothingAtEnd(s);
    hide TokenStart;
  }

  lemma TokensTurn(s: string, p: nat, n: nat, ignoreQuotes: bool)
    requires p <= |s| && '\0' !in s && n <= MAX_STRING_TOKENS
    ensures Tokens(s, p, n, ignoreQuotes) ==
      if n == MAX_STRING_TOKENS || TokenStart(s, p) == None then []
      else
        var (text, next) := TokenAt(s, TokenStart(s, p).value, ignoreQuotes);
        if next == None then [text] else [text] + Tokens(s, next.value, n + 1, ignoreQuotes)
  {
    hide TokenStart;
    hide TokenAt;
  }
}
