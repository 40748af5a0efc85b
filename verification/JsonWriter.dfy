/** The two printers, and why the reader reads back what they print. Each appends to `document`; each is
    proved to append the spelling of an RFC 8259 document that means the value. */
module JsonWriter {
  import opened JsonValue
  import opened JsonNumber
  import opened JsonParse
  import opened JsonDoc
  import opened JsonText

  /** The document means the value, integer tags aside. */
  ghost predicate Means(f: Features, d: Doc, v: Value)
  {
    Good(f, d) && Meaning(f, d) == Norm(v)
  }

  // ---- Lists with commas between -------------------------------------------

  function Join(parts: seq<string>): string
    requires parts != []
  {
    if |parts| == 1 then parts[0] else Join(parts[..|parts| - 1]) + "," + parts[|parts| - 1]
  }

  lemma {:induction false} JoinFront(parts: seq<string>)
    requires |parts| > 1
    ensures Join(parts) == parts[0] + ("," + Join(parts[1..]))
  {
    var front, last := parts[..|parts| - 1], parts[|parts| - 1];
    if |parts| == 2 {
      assert Join(parts[1..]) == parts[1] && Join(front) == parts[0];
    } else {
      JoinFront(front);
      assert front[1..] == parts[1..][..|parts| - 2];
      assert Join(parts[1..]) == Join(front[1..]) + "," + last;
    }
  }

  function ItemText(x: Item): string { Render(x.doc) + x.after }

  function ItemTexts(items: seq<Item>): (r: seq<string>)
    ensures |r| == |items| && forall i :: 0 <= i < |items| ==> r[i] == ItemText(items[i])
  {
    seq(|items|, i requires 0 <= i < |items| => ItemText(items[i]))
  }

  function FieldText(x: Field): string
  {
    x.ws + (Quote(x.name) + (x.colon + (":" + (Render(x.doc) + x.after))))
  }

  function FieldTexts(fields: seq<Field>): (r: seq<string>)
    ensures |r| == |fields| && forall i :: 0 <= i < |fields| ==> r[i] == FieldText(fields[i])
  {
    seq(|fields|, i requires 0 <= i < |fields| => FieldText(fields[i]))
  }

  lemma {:induction false} ItemsJoined(items: seq<Item>)
    requires items != []
    ensures RenderItems(items) == Join(ItemTexts(items)) + "]"
  {
    hide Render;
    if |items| > 1 {
      ItemsJoined(items[1..]);
      assert ItemTexts(items)[1..] == ItemTexts(items[1..]);
      JoinFront(ItemTexts(items));
    }
  }

  lemma FieldThenTail(x: Field, tail: string)
    ensures x.ws + (Quote(x.name) + (x.colon + (":" + (Render(x.doc) + (x.after + tail))))) == FieldText(x) + tail
  {
    hide Render;
    hide Quote;
    var quote, body := Quote(x.name), Render(x.doc);
    assert body + (x.after + tail) == (body + x.after) + tail;
    assert x.colon + (":" + ((body + x.after) + tail)) == (x.colon + (":" + (body + x.after))) + tail;
    assert x.ws + (quote + ((x.colon + (":" + (body + x.after))) + tail)) == FieldText(x) + tail;
  }

  lemma FieldsFront(fields: seq<Field>)
    requires fields != []
    ensures RenderFields(fields) == FieldText(fields[0]) + FieldsTail(fields)
  {
    hide FieldText;
    hide Render;
    hide Quote;
    FieldThenTail(fields[0], FieldsTail(fields));
  }

  lemma {:induction false} FieldsJoined(fields: seq<Field>)
    requires fields != []
    ensures RenderFields(fields) == Join(FieldTexts(fields)) + "}"
  {
    hide FieldText;
    hide RenderFields;
    FieldsFront(fields);
    if |fields| > 1 {
      FieldsJoined(fields[1..]);
      assert FieldTexts(fields)[1..] == FieldTexts(fields[1..]);
      JoinFront(FieldTexts(fields));
    }
  }

  // ---- Meanings of lists ---------------------------------------------------

  lemma {:induction false} ItemsMean(f: Features, items: seq<Item>, values: seq<Value>)
    requires |items| == |values|
    requires forall i :: 0 <= i < |items| ==> AllSpace(items[i].after) && Means(f, items[i].doc, values[i])
    ensures (forall i :: 0 <= i < |items| ==> GoodItem(f, items[i])) && ItemsMeaning(f, items) == NormAll(values)
  {
    hide Good;
    hide Meaning;
    hide Norm;
    if items != [] { ItemsMean(f, items[1..], values[1..]); }
  }

  /** A field that spells a member. */
  ghost predicate Spells(f: Features, x: Field, m: Member)
  {
    GoodField(f, x) && Text(x.name) == m.name && '\0' !in m.name && Means(f, x.doc, m.value)
  }

  lemma NormedPrefix(ms: seq<Member>, n: nat)
    requires n < |ms| && Sorted(ms)
    ensures Put(NormMembers(ms[..n]), ms[n].name, Norm(ms[n].value)) == NormMembers(ms[..n + 1])
  {
    hide Norm;
    hide NormMembers;
    hide Put;
    hide Less;
    var m := Member(ms[n].name, Norm(ms[n].value));
    var before, after := NormMembers(ms[..n]), NormMembers(ms[..n + 1]);
    assert after == before + [m];
    assert forall i :: 0 <= i <= n ==> after[i].name == ms[i].name;
    PutLast(before, m);
  }

  lemma {:induction false} FieldsMeanFrom(f: Features, fields: seq<Field>, ms: seq<Member>, n: nat)
    requires n + |fields| == |ms| && Sorted(ms)
    requires forall i :: 0 <= i < |fields| ==> Spells(f, fields[i], ms[n + i])
    ensures forall i :: 0 <= i < |fields| ==> GoodField(f, fields[i])
    ensures FieldsMeaning(f, fields, NormMembers(ms[..n])) == NormMembers(ms)
    decreases |fields|
  {
    hide Good;
    hide Meaning;
    hide Norm;
    hide Text;
    hide Put;
    if fields == [] {
      assert ms[..n] == ms;
    } else {
      assert Spells(f, fields[0], ms[n]);
      NormedPrefix(ms, n);
      FieldsMeanFrom(f, fields[1..], ms, n + 1);
    }
  }

  lemma ArrayUnfold(f: Features, ws: string, items: seq<Item>, close: string)
    requires AllSpace(ws) && AllSpace(close) && forall i :: 0 <= i < |items| ==> GoodItem(f, items[i])
    ensures Good(f, DArr(ws, items, close))
    ensures Meaning(f, DArr(ws, items, close)) == Arr(ItemsMeaning(f, items))
    ensures items != [] ==> Render(DArr(ws, items, close)) == ws + ("[" + RenderItems(items))
  {
    hide GoodItem;
    hide AllSpace;
    hide ItemsMeaning;
    hide RenderItems;
  }

  lemma ArrayMeans(f: Features, ws: string, items: seq<Item>, close: string, values: seq<Value>)
    requires AllSpace(ws) && AllSpace(close) && |items| == |values|
    requires forall i :: 0 <= i < |items| ==> AllSpace(items[i].after) && Means(f, items[i].doc, values[i])
    ensures Means(f, DArr(ws, items, close), Arr(values))
    ensures items != [] ==> Render(DArr(ws, items, close)) == ws + "[" + Join(ItemTexts(items)) + "]"
  {
    hide *;
    ItemsMean(f, items, values);
    ArrayUnfold(f, ws, items, close);
    NormArray(values);
    MeansIs(f, DArr(ws, items, close), Arr(values));
    if items != [] {
      ItemsJoined(items);
      Bracketed(ws, "[", Join(ItemTexts(items)), "]");
    }
  }

  lemma MeansIs(f: Features, d: Doc, v: Value)
    requires Good(f, d) && Meaning(f, d) == Norm(v)
    ensures Means(f, d, v)
  {
  }

  lemma NormArray(values: seq<Value>)
    ensures Norm(Arr(values)) == Arr(NormAll(values))
  {
  }

  lemma Bracketed(ws: string, open: string, inner: string, end: string)
    ensures ws + (open + (inner + end)) == ws + open + inner + end
  {
    assert open + (inner + end) == open + inner + end;
    AppendThree(ws, open, inner, end);
  }

  lemma ObjectUnfold(f: Features, ws: string, fields: seq<Field>, close: string)
    requires AllSpace(ws) && AllSpace(close) && forall i :: 0 <= i < |fields| ==> GoodField(f, fields[i])
    ensures Good(f, DObj(ws, fields, close))
    ensures Meaning(f, DObj(ws, fields, close)) == Obj(FieldsMeaning(f, fields, []))
    ensures fields != [] ==> Render(DObj(ws, fields, close)) == ws + ("{" + RenderFields(fields))
  {
    hide GoodField;
    hide AllSpace;
    hide FieldsMeaning;
    hide RenderFields;
  }

  lemma NormObject(ms: seq<Member>)
    ensures Norm(Obj(ms)) == Obj(NormMembers(ms))
  {
  }

  lemma ObjectMeans(f: Features, ws: string, fields: seq<Field>, close: string, ms: seq<Member>)
    requires AllSpace(ws) && AllSpace(close) && |fields| == |ms| && Sorted(ms)
    requires forall i :: 0 <= i < |fields| ==> Spells(f, fields[i], ms[i])
    ensures Means(f, DObj(ws, fields, close), Obj(ms))
    ensures fields != [] ==> Render(DObj(ws, fields, close)) == ws + "{" + Join(FieldTexts(fields)) + "}"
  {
    hide *;
    NormNone(ms);
    FieldsMeanFrom(f, fields, ms, 0);
    ObjectUnfold(f, ws, fields, close);
    NormObject(ms);
    MeansIs(f, DObj(ws, fields, close), Obj(ms));
    if fields != [] {
      FieldsJoined(fields);
      Bracketed(ws, "{", Join(FieldTexts(fields)), "}");
    }
  }

  lemma NormNone(ms: seq<Member>)
    ensures NormMembers(ms[..0]) == []
  {
  }

  /** More space in front changes nothing but the text. */
  function Indented(ws: string, d: Doc): Doc { d.(ws := ws + d.ws) }

  lemma IndentedText(ws: string, d: Doc)
    ensures Render(Indented(ws, d)) == ws + Render(d)
  {
    hide RenderItems;
    hide RenderFields;
    hide Quote;
    assert Body(Indented(ws, d)) == Body(d);
  }

  lemma IndentedMeans(f: Features, ws: string, d: Doc, v: Value)
    requires AllSpace(ws) && Means(f, d, v)
    ensures Means(f, Indented(ws, d), v) && Render(Indented(ws, d)) == ws + Render(d)
  {
    hide RenderItems;
    hide RenderFields;
    hide ItemsMeaning;
    hide FieldsMeaning;
    hide GoodItem;
    hide GoodField;
    hide GoodReal;
    hide GoodPieces;
    hide Quote;
    hide Norm;
  }

  /** What the two writers spell the same: everything but a container with something in it. */
  predicate Leaf(v: Value)
  {
    match v case Arr(items) => items == [] case Obj(ms) => ms == [] case _ => true
  }

  function LeafDoc(v: Value): Doc
    requires Leaf(v) && Writable(v)
  {
    match v
    case Null => DNull("")
    case Bool(b) => DBool("", b)
    case Int(i) => DInt("", IntText(i))
    case UInt(u) => DInt("", IntText(u))
    case Str(s) => DStr("", Pieces(s))
    case Arr(_) => DArr("", [], "")
    case Obj(_) => DObj("", [], "")
  }

  lemma LeafMeans(f: Features, v: Value)
    requires Leaf(v) && Writable(v)
    ensures Means(f, LeafDoc(v), v)
  {
    match v
    case Int(i) => IntTextSpells(i);
    case UInt(u) => IntTextSpells(u);
    case Str(s) => PiecesMean(s);
    case _ =>
  }

  method LeafText(v: Value) returns (text: string)
    requires Leaf(v) && Writable(v)
    ensures text == Render(LeafDoc(v))
  {
    hide Quote;
    hide Pieces;
    hide IntText;
    match v
    case Null => text := "null";
    case Int(i) => text := SignedToString(i);
    case UInt(u) => text := UnsignedToString(u);
    case Str(s) => text := ValueToQuotedString(s);
    case Bool(b) => text := if b then "true" else "false";
    case Arr(_) => text := "[]";
    case Obj(_) => text := "{}";
  }

  /** The first `n` parts; nothing for none. */
  function Joined(parts: seq<string>, n: nat): string
    requires n <= |parts|
  {
    if n == 0 then "" else Join(parts[..n])
  }

  lemma JoinedMore(parts: seq<string>, n: nat)
    requires n < |parts|
    ensures Joined(parts, n + 1) == Joined(parts, n) + (if n > 0 then "," else "") + parts[n]
  {
    assert parts[..n + 1][..n] == parts[..n];
  }

  // ---- The compact writer ---------------------------------------------------

  /** What the compact writer spells: no space at all, or one after each colon for YAML. */
  function FastDoc(v: Value, yaml: bool): Doc
    requires Writable(v)
  {
    match v
    case Arr(items) => DArr("", FastItems(items, yaml), "")
    case Obj(ms) => DObj("", FastFields(ms, yaml), "")
    case _ => LeafDoc(v)
  }

  function FastItems(items: seq<Value>, yaml: bool): (r: seq<Item>)
    requires forall i :: 0 <= i < |items| ==> Writable(items[i])
    ensures |r| == |items| && forall i :: 0 <= i < |items| ==> r[i] == Item(FastDoc(items[i], yaml), "")
  {
    if items == [] then [] else [Item(FastDoc(items[0], yaml), "")] + FastItems(items[1..], yaml)
  }

  function Gap(yaml: bool): string { if yaml then " " else "" }

  function FastField(m: Member, yaml: bool): Field
    requires Writable(m.value)
    decreases m, 1
  {
    Field("", Pieces(m.name), "", Indented(Gap(yaml), FastDoc(m.value, yaml)), "")
  }

  function FastFields(ms: seq<Member>, yaml: bool): (r: seq<Field>)
    requires forall i :: 0 <= i < |ms| ==> Writable(ms[i].value)
    ensures |r| == |ms| && forall i :: 0 <= i < |ms| ==> r[i] == FastField(ms[i], yaml)
  {
    if ms == [] then [] else [FastField(ms[0], yaml)] + FastFields(ms[1..], yaml)
  }

  lemma {:induction false} FastMeans(f: Features, v: Value, yaml: bool)
    requires Writable(v)
    ensures Means(f, FastDoc(v, yaml), v)
  {
    hide Means;
    hide LeafDoc;
    hide Indented;
    hide Pieces;
    if !v.Arr? && !v.Obj? {
      LeafMeans(f, v);
    } else if v.Arr? {
      var items := v.items;
      forall i | 0 <= i < |items| ensures Means(f, FastDoc(items[i], yaml), items[i]) { FastMeans(f, items[i], yaml); }
      ArrayMeans(f, "", FastItems(items, yaml), "", items);
    } else {
      var ms := v.members;
      forall i | 0 <= i < |ms| ensures Spells(f, FastField(ms[i], yaml), ms[i]) {
        FastMeans(f, ms[i].value, yaml);
        NamedField(f, "", ms[i], "", Gap(yaml), FastDoc(ms[i].value, yaml));
      }
      ObjectMeans(f, "", FastFields(ms, yaml), "", ms);
    }
  }

  /** A member spelled with space around its parts. */
  lemma NamedField(f: Features, ws: string, m: Member, colon: string, gap: string, d: Doc)
    requires AllSpace(ws) && AllSpace(colon) && AllSpace(gap) && '\0' !in m.name && Means(f, d, m.value)
    ensures Spells(f, Field(ws, Pieces(m.name), colon, Indented(gap, d), ""), m)
  {
    hide Good;
    hide Meaning;
    hide Norm;
    hide Quote;
    hide Pieces;
    PiecesMean(m.name);
    IndentedMeans(f, gap, d, m.value);
  }

  class FastWriter {
    var document: string
    var yamlCompatibilityEnabled: bool

    constructor ()
      ensures document == "" && !yamlCompatibilityEnabled
    {
      document, yamlCompatibilityEnabled := "", false;
    }

    method EnableYAMLCompatibility()
      modifies this
      ensures yamlCompatibilityEnabled && document == old(document)
    {
      yamlCompatibilityEnabled := true;
    }

    method Write(root: Value) returns (text: string)
      requires Writable(root)
      modifies this`document
      ensures text == Render(FastDoc(root, yamlCompatibilityEnabled)) + "\n"
    {
      document := "";
      WriteValue(root);
      document := document + "\n";
      text := document;
    }

    method WriteValue(v: Value)
      requires Writable(v)
      modifies this`document
      ensures document == old(document) + Render(FastDoc(v, yamlCompatibilityEnabled))
      decreases v, 1
    {
      if v.Arr? {
        WriteArray(v);
      } else if v.Obj? {
        WriteObject(v);
      } else {
        var text := LeafText(v);
        document := document + text;
      }
    }

    method WriteArray(v: Value)
      requires Writable(v) && v.Arr?
      modifies this`document
      ensures document == old(document) + Render(FastDoc(v, yamlCompatibilityEnabled))
      decreases v, 0
    {
      hide *;
      ghost var parts := FastArrayText(v, yamlCompatibilityEnabled);
      document := document + "[";
      ghost var begun := document;
      JoinedNone(begun, parts);
      for index := 0 to |v.items|
        invariant document == begun + Joined(parts, index)
      {
        ghost var sep := if index > 0 then "," else "";
        AppendPart(begun, parts, index, sep);
        if index > 0 { document := document + ","; }
        assert document == begun + Joined(parts, index) + sep;
        WriteValue(v.items[index]);
      }
      document := document + "]";
    }

    method WriteObject(v: Value)
      requires Writable(v) && v.Obj?
      modifies this`document
      ensures document == old(document) + Render(FastDoc(v, yamlCompatibilityEnabled))
      decreases v, 0
    {
      hide *;
      ghost var parts := FastObjectText(v, yamlCompatibilityEnabled);
      document := document + "{";
      ghost var begun := document;
      JoinedNone(begun, parts);
      for it := 0 to |v.members|
        invariant document == begun + Joined(parts, it)
      {
        ghost var sep := if it > 0 then "," else "";
        AppendPart(begun, parts, it, sep);
        var name := v.members[it].name;
        if it > 0 { document := document + ","; }
        assert document == begun + Joined(parts, it) + sep;
        var quoted := ValueToQuotedString(name);
        document := document + quoted;
        var colon := if yamlCompatibilityEnabled then ": " else ":";
        document := document + colon;
        WriteValue(v.members[it].value);
        AppendThree(begun + Joined(parts, it) + sep, quoted, colon,
          Render(FastDoc(v.members[it].value, yamlCompatibilityEnabled)));
      }
      document := document + "}";
    }
  }

  lemma JoinedNone(begun: string, parts: seq<string>)
    ensures begun == begun + Joined(parts, 0)
  {
  }

  lemma AppendPart(begun: string, parts: seq<string>, n: nat, sep: string)
    requires n < |parts| && sep == if n > 0 then "," else ""
    ensures begun + Joined(parts, n) + sep + parts[n] == begun + Joined(parts, n + 1)
  {
    JoinedMore(parts, n);
  }

  lemma AppendThree(begun: string, a: string, b: string, c: string)
    ensures begun + a + b + c == begun + (a + b + c)
  {
  }

  /** An array as the compact writer spells it: the parts between its brackets. */
  lemma FastArrayText(v: Value, yaml: bool) returns (parts: seq<string>)
    requires Writable(v) && v.Arr?
    ensures |parts| == |v.items|
    ensures forall i :: 0 <= i < |v.items| ==> Writable(v.items[i]) && parts[i] == Render(FastDoc(v.items[i], yaml))
    ensures forall before: string :: before + "[" + Joined(parts, |parts|) + "]" == before + Render(FastDoc(v, yaml))
  {
    var items := FastItems(v.items, yaml);
    parts := ItemTexts(items);
    forall i | 0 <= i < |v.items| ensures parts[i] == Render(FastDoc(v.items[i], yaml)) {
      assert Render(items[i].doc) + "" == Render(items[i].doc);
    }
    ArrayText(items, parts);
    var inner := Joined(parts, |parts|);
    forall before: string
      ensures before + "[" + inner + "]" == before + Render(FastDoc(v, yaml))
    {
      AppendThree(before, "[", inner, "]");
    }
  }

  lemma FastObjectText(v: Value, yaml: bool) returns (parts: seq<string>)
    requires Writable(v) && v.Obj?
    ensures |parts| == |v.members|
    ensures forall i :: 0 <= i < |v.members| ==>
      && '\0' !in v.members[i].name && Writable(v.members[i].value)
      && parts[i] == Quote(Pieces(v.members[i].name)) + (if yaml then ": " else ":")
        + Render(FastDoc(v.members[i].value, yaml))
    ensures forall before: string :: before + "{" + Joined(parts, |parts|) + "}" == before + Render(FastDoc(v, yaml))
  {
    hide *;
    var fields := FastObjectUnfold(v, yaml);
    parts := fields.1;
    forall i | 0 <= i < |v.members|
      ensures parts[i] == Quote(Pieces(v.members[i].name)) + (if yaml then ": " else ":")
        + Render(FastDoc(v.members[i].value, yaml))
    {
      FastFieldText(v.members[i], yaml);
    }
    ObjectText(fields.0, parts);
    var inner := Joined(parts, |parts|);
    forall before: string
      ensures before + "{" + inner + "}" == before + Render(FastDoc(v, yaml))
    {
      AppendThree(before, "{", inner, "}");
    }
  }

  lemma FastObjectUnfold(v: Value, yaml: bool) returns (r: (seq<Field>, seq<string>))
    requires Writable(v) && v.Obj?
    ensures |r.0| == |r.1| == |v.members| && r.1 == FieldTexts(r.0) && FastDoc(v, yaml) == DObj("", r.0, "")
    ensures forall i :: 0 <= i < |v.members| ==>
      '\0' !in v.members[i].name && Writable(v.members[i].value) && r.1[i] == FieldText(FastField(v.members[i], yaml))
  {
    hide FastField;
    hide FieldText;
    var fields := FastFields(v.members, yaml);
    r := (fields, FieldTexts(fields));
  }

  lemma ArrayRender(items: seq<Item>)
    ensures Render(DArr("", items, "")) == "" + ("[" + if items == [] then "" + "]" else RenderItems(items))
  {
    hide RenderItems;
  }

  lemma ArrayText(items: seq<Item>, parts: seq<string>)
    requires parts == ItemTexts(items)
    ensures Render(DArr("", items, "")) == "[" + Joined(parts, |parts|) + "]"
  {
    hide ItemTexts;
    hide Render;
    hide RenderItems;
    hide Join;
    ArrayRender(items);
    if items != [] {
      ItemsJoined(items);
      assert parts[..|parts|] == parts;
    }
  }

  lemma ObjectRender(fields: seq<Field>)
    ensures Render(DObj("", fields, "")) == "" + ("{" + if fields == [] then "" + "}" else RenderFields(fields))
  {
    hide RenderFields;
  }

  lemma ObjectText(fields: seq<Field>, parts: seq<string>)
    requires parts == FieldTexts(fields)
    ensures Render(DObj("", fields, "")) == "{" + Joined(parts, |parts|) + "}"
  {
    hide FieldTexts;
    hide Render;
    hide RenderFields;
    hide Join;
    ObjectRender(fields);
    if fields != [] {
      FieldsJoined(fields);
      assert parts[..|parts|] == parts;
    }
  }

  lemma FastFieldText(m: Member, yaml: bool)
    requires Writable(m.value)
    ensures FieldText(FastField(m, yaml))
      == Quote(Pieces(m.name)) + (if yaml then ": " else ":") + Render(FastDoc(m.value, yaml))
  {
    hide *;
    var d := FastDoc(m.value, yaml);
    FastFieldUnfold(m, yaml);
    IndentedText(Gap(yaml), d);
    AroundColon("", Quote(Pieces(m.name)), "", Gap(yaml), Render(d));
    assert "" + Quote(Pieces(m.name)) + "" == Quote(Pieces(m.name));
    assert ":" + Gap(yaml) == if yaml then ": " else ":" by { GapIs(yaml); }
  }

  lemma FastFieldUnfold(m: Member, yaml: bool)
    requires Writable(m.value)
    ensures FieldText(FastField(m, yaml))
      == "" + (Quote(Pieces(m.name)) + ("" + (":" + (Render(Indented(Gap(yaml), FastDoc(m.value, yaml))) + ""))))
  {
    hide Render;
    hide Quote;
    hide Gap;
  }

  lemma GapIs(yaml: bool)
    ensures ":" + Gap(yaml) == if yaml then ": " else ":"
  {
  }

  lemma AroundColon(ws: string, name: string, colon: string, gap: string, value: string)
    ensures ws + (name + (colon + (":" + ((gap + value) + "")))) == ws + name + colon + (":" + gap) + value
  {
    assert (gap + value) + "" == gap + value;
    assert ":" + (gap + value) == (":" + gap) + value;
    var rest := (":" + gap) + value;
    assert colon + rest == (colon + (":" + gap)) + value;
    assert name + (colon + rest) == (name + colon) + rest;
    assert ws + ((name + colon) + rest) == (ws + name + colon) + rest;
  }
}
