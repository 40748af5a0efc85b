/** The pretty printer. Whichever layout it picks, what it appends spells a document that means the value. */
module JsonStyled {
  import opened JsonValue
  import opened JsonParse
  import opened JsonDoc
  import opened JsonText
  import opened JsonWriter

  /** The elements so far, commas between. */
  function OpenItems(items: seq<Item>): string { Joined(ItemTexts(items), |items|) }

  function OpenFields(fields: seq<Field>): string { Joined(FieldTexts(fields), |fields|) }

  function Comma(n: nat): string { if n > 0 then "," else "" }

  lemma ItemAdded(text: string, items: seq<Item>, ws: string, d: Doc)
    ensures text + OpenItems(items) + Comma(|items|) + (ws + Render(d))
      == text + OpenItems(items + [Item(Indented(ws, d), "")])
  {
    hide Render;
    var x := Item(Indented(ws, d), "");
    IndentedText(ws, d);
    assert ItemText(x) == ws + Render(d);
    PartAdded(text, ItemTexts(items), ItemTexts(items + [x]));
  }

  lemma PartAdded(text: string, parts: seq<string>, more: seq<string>)
    requires |more| == |parts| + 1 && more[..|parts|] == parts
    ensures text + Joined(parts, |parts|) + Comma(|parts|) + more[|parts|] == text + Joined(more, |more|)
  {
    var n := |parts|;
    JoinedMore(more, n);
    assert parts[..n] == parts;
    assert Joined(more, n) == Joined(parts, n);
    AppendThree(text, Joined(parts, n), Comma(n), more[n]);
  }

  lemma SpacedField(x: Field, ws: string, name: string, d: Doc)
    requires x == Field(ws, Pieces(name), " ", Indented(" ", d), "")
    ensures FieldText(x) == ws + Quote(Pieces(name)) + " : " + Render(d)
  {
    hide Render;
    hide Quote;
    hide Pieces;
    hide Indented;
    var quote := Quote(Pieces(name));
    IndentedText(" ", d);
    AroundColon(ws, quote, " ", " ", Render(d));
    assert ":" + " " == ": " && " " + ": " == " : ";
    assert ws + quote + " " + ": " == ws + quote + " : ";
  }

  lemma FieldAdded(text: string, fields: seq<Field>, ws: string, name: string, d: Doc)
    ensures var x := Field(ws, Pieces(name), " ", Indented(" ", d), "");
      text + OpenFields(fields) + Comma(|fields|) + (ws + Quote(Pieces(name)) + " : " + Render(d))
        == text + OpenFields(fields + [x])
  {
    hide FieldText;
    var x := Field(ws, Pieces(name), " ", Indented(" ", d), "");
    SpacedField(x, ws, name, d);
    PartAdded(text, FieldTexts(fields), FieldTexts(fields + [x]));
  }

  /** Space before the closing bracket belongs to the last element. */
  lemma LastPart(parts: seq<string>, more: seq<string>, close: string)
    requires |parts| == |more| > 0 && more == parts[|parts| - 1 := parts[|parts| - 1] + close]
    ensures Joined(more, |more|) == Joined(parts, |parts|) + close
  {
    var n := |parts| - 1;
    assert more[..n] == parts[..n];
    assert more[..n + 1] == more && parts[..n + 1] == parts;
    JoinedMore(parts, n);
    JoinedMore(more, n);
    assert Joined(more, n) == Joined(parts, n);
    AppendThree(Joined(parts, n), Comma(n), parts[n], close);
  }

  lemma ArrayDone(f: Features, before: string, ws: string, items: seq<Item>, close: string, values: seq<Value>)
    returns (d: Doc)
    requires AllSpace(ws) && AllSpace(close) && |items| == |values| > 0
    requires forall i :: 0 <= i < |items| ==> items[i].after == "" && Means(f, items[i].doc, values[i])
    ensures Means(f, d, Arr(values)) && before + ws + "[" + OpenItems(items) + close + "]" == before + Render(d)
  {
    hide Means;
    hide ItemText;
    var n := |items| - 1;
    var last := items[n];
    var closed := items[n := Item(last.doc, close)];
    d := DArr(ws, closed, "");
    ArrayMeans(f, ws, closed, "", values);
    ItemCloses(last, close);
    assert ItemTexts(closed) == ItemTexts(items)[n := ItemText(last) + close];
    LastPart(ItemTexts(items), ItemTexts(closed), close);
    assert ItemTexts(closed)[..|closed|] == ItemTexts(closed);
    Enclosed(before, ws, "[", OpenItems(items), close, "]");
  }

  lemma ItemCloses(x: Item, close: string)
    requires x.after == ""
    ensures ItemText(Item(x.doc, close)) == ItemText(x) + close
  {
    hide Render;
  }

  lemma Enclosed(before: string, ws: string, open: string, inner: string, close: string, end: string)
    ensures before + ws + open + inner + close + end == before + (ws + open + (inner + close) + end)
  {
    assert before + (ws + open) == before + ws + open;
    AppendThree(before + (ws + open), inner, close, end);
    AppendThree(before, ws + open, inner + close, end);
  }

  lemma ObjectDone(f: Features, before: string, ws: string, fields: seq<Field>, close: string, ms: seq<Member>)
    returns (d: Doc)
    requires AllSpace(ws) && AllSpace(close) && |fields| == |ms| > 0 && Sorted(ms)
    requires forall i :: 0 <= i < |fields| ==> fields[i].after == "" && Spells(f, fields[i], ms[i])
    ensures Means(f, d, Obj(ms)) && before + ws + "{" + OpenFields(fields) + close + "}" == before + Render(d)
  {
    hide Spells;
    hide Means;
    hide FieldText;
    hide Less;
    var n := |fields| - 1;
    var closed := fields[n := fields[n].(after := close)];
    d := DObj(ws, closed, "");
    FieldCloses(f, fields[n], close, ms[n]);
    ObjectMeans(f, ws, closed, "", ms);
    assert FieldTexts(closed) == FieldTexts(fields)[n := FieldText(fields[n]) + close];
    LastPart(FieldTexts(fields), FieldTexts(closed), close);
    assert FieldTexts(closed)[..|closed|] == FieldTexts(closed);
    Enclosed(before, ws, "{", OpenFields(fields), close, "}");
  }

  lemma FieldCloses(f: Features, x: Field, close: string, m: Member)
    requires x.after == "" && AllSpace(close) && Spells(f, x, m)
    ensures FieldText(x.(after := close)) == FieldText(x) + close && Spells(f, x.(after := close), m)
  {
    hide Render;
    hide Quote;
    hide Good;
    hide Meaning;
    hide Norm;
    FieldThenTail(x, close);
    assert x.after + close == close;
  }

  function TotalLength(texts: seq<string>): nat
  {
    if texts == [] then 0 else TotalLength(texts[..|texts| - 1]) + |texts[|texts| - 1]|
  }

  const RIGHT_MARGIN := 74
  const INDENT_SIZE: nat := 3

  /** A list of values takes a line each when it is long, holds a filled container or fills the line. */
  predicate TakesLines(items: seq<Value>, texts: seq<string>)
  {
    || |items| * 3 >= RIGHT_MARGIN
    || (exists i :: 0 <= i < |items| && !Leaf(items[i]))
    || 4 + (|items| - 1) * 2 + TotalLength(texts) >= RIGHT_MARGIN
  }

  /** One text for each element, each spelling that element. */
  ghost predicate Measured(f: Features, items: seq<Value>, texts: seq<string>, docs: seq<Doc>)
  {
    && |texts| == |docs| == |items|
    && forall i :: 0 <= i < |items| ==> texts[i] == Render(docs[i]) && Means(f, docs[i], items[i])
  }

  class StyledWriter {
    var document: string
    var childValues: seq<string>
    var indentString: string
    var addChildValues: bool

    constructor ()
      ensures document == "" && childValues == [] && indentString == "" && !addChildValues
    {
      document, childValues, indentString, addChildValues := "", [], "", false;
    }

    ghost predicate Ready()
      reads this`indentString
    {
      AllSpace(indentString)
    }

    method Write(root: Value, ghost f: Features) returns (text: string, ghost d: Doc)
      requires Writable(root)
      modifies this
      ensures Means(f, d, root) && text == Render(d) + "\n"
    {
      document, addChildValues, indentString := "", false, "";
      d := WriteValue(root, f);
      document := document + "\n";
      text := document;
      assert "" + Render(d) == Render(d);
    }

    method PushValue(value: string)
      modifies this`document, this`childValues
      ensures addChildValues ==> childValues == old(childValues) + [value] && document == old(document)
      ensures !addChildValues ==> document == old(document) + value && childValues == old(childValues)
    {
      if addChildValues { childValues := childValues + [value]; } else { document := document + value; }
    }

    /** Nothing after a space; else the indentation, on a new line unless one has begun. */
    static function IndentAfter(text: string, indent: string): string
    {
      if text == "" || text[|text| - 1] == '\n' then indent
      else if text[|text| - 1] == ' ' then ""
      else "\n" + indent
    }

    /** Starts a line, unless the text already stands after a space. */
    method WriteIndent() returns (ghost ws: string)
      requires Ready()
      modifies this`document
      ensures AllSpace(ws) && document == old(document) + ws
      ensures ws == IndentAfter(old(document), indentString)
    {
      ws := "";
      if document != "" {
        var last := document[|document| - 1];
        if last == ' ' { return; }
        if last != '\n' {
          document := document + "\n";
          ws := "\n";
        }
      }
      document := document + indentString;
      ws := ws + indentString;
    }

    method WriteWithIndent(value: string) returns (ghost ws: string)
      requires Ready()
      modifies this`document
      ensures AllSpace(ws) && document == old(document) + ws + value
    {
      ws := WriteIndent();
      document := document + value;
    }

    method Indent()
      requires Ready()
      modifies this`indentString
      ensures Ready() && indentString == old(indentString) + seq(INDENT_SIZE, i => ' ')
    {
      indentString := indentString + seq(INDENT_SIZE, i => ' ');
    }

    method Unindent()
      requires Ready() && |indentString| >= INDENT_SIZE
      modifies this`indentString
      ensures Ready() && indentString == old(indentString)[..|old(indentString)| - INDENT_SIZE]
    {
      indentString := indentString[..|indentString| - INDENT_SIZE];
    }

    /** Writes to the document, or, while an array is being measured, to the list of its elements' texts. */
    method WriteValue(v: Value, ghost f: Features) returns (ghost d: Doc)
      requires Writable(v) && Ready() && (addChildValues ==> Leaf(v))
      modifies this
      ensures Ready() && addChildValues == old(addChildValues) && indentString == old(indentString)
      ensures Means(f, d, v)
      ensures addChildValues ==> childValues == old(childValues) + [Render(d)] && document == old(document)
      ensures !addChildValues ==> document == old(document) + Render(d)
      decreases v, 4
    {
      hide *;
      LeafOrList(v);
      if Leaf(v) {
        d := LeafDoc(v);
        LeafMeans(f, v);
        var text := LeafText(v);
        PushValue(text);
      } else if v.Arr? {
        d := WriteArrayValue(v, f);
      } else {
        d := WriteObjectValue(v, f);
      }
    }

    method WriteArrayValue(v: Value, ghost f: Features) returns (ghost d: Doc)
      requires Writable(v) && v.Arr? && v.items != [] && Ready() && !addChildValues
      modifies this
      ensures Ready() && !addChildValues && indentString == old(indentString)
      ensures Means(f, d, v) && document == old(document) + Render(d)
      decreases v, 3
    {
      var isArrayMultiLine;
      ghost var docs;
      isArrayMultiLine, docs := IsMultilineArray(v, f);
      if isArrayMultiLine {
        d := WriteLines(v, f, docs);
      } else {
        d := WriteLine(v, f, docs);
      }
    }

    /** The elements' texts, or the elements themselves, a line each. */
    method WriteLines(v: Value, ghost f: Features, ghost docs: seq<Doc>) returns (ghost d: Doc)
      requires Writable(v) && v.Arr? && v.items != [] && Ready() && !addChildValues
      requires childValues == [] || Measured(f, v.items, childValues, docs)
      modifies this
      ensures Ready() && !addChildValues && indentString == old(indentString)
      ensures Means(f, d, v) && document == old(document) + Render(d)
      decreases v, 0
    {
      hide *;
      var values := v.items;
      ArrayWritable(v);
      ghost var ws := WriteWithIndent("[");
      ghost var begun := document;
      Indent();
      var hasChildValue := childValues != [];
      ghost var items: seq<Item> := [];
      var index := 0;
      NothingOpen(begun);
      while true
        invariant 0 <= index < |values| && |items| == index
        invariant forall i :: 0 <= i < |items| ==> items[i].after == "" && Means(f, items[i].doc, values[i])
        invariant document == begun + OpenItems(items) + Comma(index)
        invariant hasChildValue ==> childValues == old(childValues) && Measured(f, values, childValues, docs)
        invariant Ready() && !addChildValues && indentString == old(indentString) + seq(INDENT_SIZE, i => ' ')
        decreases |values| - index
      {
        ghost var was := document;
        ghost var space, child;
        if hasChildValue {
          MeasuredAt(f, values, childValues, docs, index);
          space := WriteWithIndent(childValues[index]);
          child := docs[index];
        } else {
          space := WriteIndent();
          child := WriteValue(values[index], f);
        }
        AppendTwo(was, space, Render(child));
        IndentedMeans(f, space, child, values[index]);
        ItemAdded(begun, items, space, child);
        items := items + [Item(Indented(space, child), "")];
        index := index + 1;
        if index == |values| { break; }
        document := document + ",";
        CommaIs(index);
      }
      Unindent();
      ghost var close := WriteWithIndent("]");
      d := ArrayDone(f, old(document), ws, items, close, values);
    }

    /** All elements on one line. */
    method WriteLine(v: Value, ghost f: Features, ghost docs: seq<Doc>) returns (ghost d: Doc)
      requires Writable(v) && v.Arr? && v.items != [] && !addChildValues
      requires Measured(f, v.items, childValues, docs)
      modifies this`document
      ensures Means(f, d, v) && document == old(document) + Render(d)
    {
      hide *;
      var size := |v.items|;
      document := document + "[ ";
      ghost var begun := old(document) + "[";
      ghost var items: seq<Item> := [];
      NothingOpen(begun);
      SpaceIsSpace();
      for index := 0 to size
        invariant |items| == index
        invariant forall i :: 0 <= i < |items| ==> items[i].after == "" && Means(f, items[i].doc, v.items[i])
        invariant document == begun + OpenItems(items) + (if index == 0 then " " else "")
      {
        MeasuredAt(f, v.items, childValues, docs, index);
        CommaIs(index);
        ghost var was := begun + OpenItems(items);
        if index > 0 { document := document + ", "; }
        SpaceThen(was, Comma(index), childValues[index]);
        document := document + childValues[index];
        IndentedMeans(f, " ", docs[index], v.items[index]);
        ItemAdded(begun, items, " ", docs[index]);
        items := items + [Item(Indented(" ", docs[index]), "")];
      }
      document := document + " ]";
      ghost var open := begun + OpenItems(items);
      assert open + " ]" == open + " " + "]";
      assert old(document) + "" + "[" == begun;
      d := ArrayDone(f, old(document), "", items, " ", v.items);
    }

    /** Whether some element is a container with something in it. */
    static method HasFilled(items: seq<Value>) returns (found: bool)
      ensures found <==> exists i :: 0 <= i < |items| && !Leaf(items[i])
    {
      found := false;
      var index := 0;
      while index < |items| && !found
        invariant 0 <= index <= |items| && (found <==> exists i :: 0 <= i < index && !Leaf(items[i]))
      {
        var child := items[index];
        found := (child.Arr? && |child.items| > 0) || (child.Obj? && |child.members| > 0);
        index := index + 1;
      }
    }

    /** Collects the elements' texts in `childValues`, one for each, and adds up the line they would make. */
    method Measure(v: Value, ghost f: Features) returns (lineLength: int, ghost docs: seq<Doc>)
      requires Writable(v) && v.Arr? && Ready() && !addChildValues && childValues == []
      requires forall i :: 0 <= i < |v.items| ==> Leaf(v.items[i])
      modifies this
      ensures Ready() && !addChildValues && indentString == old(indentString) && document == old(document)
      ensures Measured(f, v.items, childValues, docs)
      ensures lineLength == 4 + (|v.items| - 1) * 2 + TotalLength(childValues)
      decreases v, 1
    {
      hide Means;
      hide Writable;
      hide Leaf;
      var items := v.items;
      ArrayWritable(v);
      docs := [];
      addChildValues := true;
      lineLength := 4 + (|items| - 1) * 2;
      var index := 0;
      while index < |items|
        invariant 0 <= index <= |items|
        invariant Measured(f, items[..index], childValues, docs)
        invariant lineLength == 4 + (|items| - 1) * 2 + TotalLength(childValues)
        invariant Ready() && addChildValues && indentString == old(indentString) && document == old(document)
      {
        ghost var texts := childValues;
        ghost var child := WriteValue(items[index], f);
        docs := docs + [child];
        lineLength := lineLength + |childValues[index]|;
        assert childValues[..|childValues| - 1] == texts;
        index := index + 1;
      }
      addChildValues := false;
      assert items[..index] == items;
    }

    /** Whether the elements need a line each. Unless that is clear beforehand, their texts are collected
        in `childValues`, one for each. */
    method IsMultilineArray(v: Value, ghost f: Features) returns (isMultiLine: bool, ghost docs: seq<Doc>)
      requires Writable(v) && v.Arr? && v.items != [] && Ready() && !addChildValues
      modifies this
      ensures Ready() && !addChildValues && indentString == old(indentString) && document == old(document)
      ensures childValues == [] || Measured(f, v.items, childValues, docs)
      ensures !isMultiLine ==> childValues != []
      ensures isMultiLine <==> TakesLines(v.items, childValues)
      decreases v, 2
    {
      hide Writable;
      hide Leaf;
      docs := [];
      isMultiLine := |v.items| * 3 >= RIGHT_MARGIN;
      childValues := [];
      if !isMultiLine { isMultiLine := HasFilled(v.items); }
      if !isMultiLine {
        var lineLength;
        lineLength, docs := Measure(v, f);
        isMultiLine := lineLength >= RIGHT_MARGIN;
      }
    }

    method WriteObjectValue(v: Value, ghost f: Features) returns (ghost d: Doc)
      requires Writable(v) && v.Obj? && v.members != [] && Ready() && !addChildValues
      modifies this
      ensures Ready() && !addChildValues && indentString == old(indentString)
      ensures Means(f, d, v) && document == old(document) + Render(d)
      decreases v, 2
    {
      hide *;
      var ms := v.members;
      ObjectWritable(v);
      ghost var ws := WriteWithIndent("{");
      ghost var begun := document;
      Indent();
      ghost var fields: seq<Field> := [];
      var it := 0;
      NothingOpen(begun);
      while true
        invariant 0 <= it < |ms| && |fields| == it
        invariant forall i :: 0 <= i < |fields| ==> fields[i].after == "" && Spells(f, fields[i], ms[i])
        invariant document == begun + OpenFields(fields) + Comma(it)
        invariant Ready() && !addChildValues && indentString == old(indentString) + seq(INDENT_SIZE, i => ' ')
        decreases |ms| - it
      {
        var name, child := ms[it].name, ms[it].value;
        ghost var was := document;
        var quoted := ValueToQuotedString(name);
        ghost var space := WriteWithIndent(quoted);
        document := document + " : ";
        ghost var value := WriteValue(child, f);
        FieldSpells(f, space, ms[it], value);
        FieldText4(was, space, quoted, Render(value));
        FieldAdded(begun, fields, space, name, value);
        fields := fields + [Field(space, Pieces(name), " ", Indented(" ", value), "")];
        it := it + 1;
        if it == |ms| { break; }
        document := document + ",";
        CommaIs(it);
      }
      Unindent();
      ghost var close := WriteWithIndent("}");
      d := ObjectDone(f, old(document), ws, fields, close, ms);
    }
  }

  lemma MeasuredAt(f: Features, items: seq<Value>, texts: seq<string>, docs: seq<Doc>, i: nat)
    requires Measured(f, items, texts, docs) && i < |items|
    ensures |texts| == |docs| == |items| && texts[i] == Render(docs[i]) && Means(f, docs[i], items[i])
  {
  }

  lemma SpaceIsSpace()
    ensures AllSpace(" ") && AllSpace("")
  {
  }

  lemma SpaceThen(was: string, comma: string, text: string)
    ensures was + (comma + " ") + text == was + comma + (" " + text)
    ensures comma == "" ==> was + " " + text == was + comma + (" " + text)
  {
    assert was + (comma + " ") == was + comma + " ";
    AppendTwo(was + comma, " ", text);
  }

  lemma AppendTwo(a: string, b: string, c: string)
    ensures a + b + c == a + (b + c)
  {
  }

  lemma LeafOrList(v: Value)
    ensures !Leaf(v) ==> v.Arr? || v.Obj?
    ensures v.Arr? ==> (Leaf(v) <==> v.items == [])
    ensures v.Obj? ==> (Leaf(v) <==> v.members == [])
  {
  }

  lemma ObjectWritable(v: Value)
    requires Writable(v) && v.Obj?
    ensures Sorted(v.members)
    ensures forall i :: 0 <= i < |v.members| ==> '\0' !in v.members[i].name && Writable(v.members[i].value)
  {
  }

  lemma ArrayWritable(v: Value)
    requires Writable(v) && v.Arr?
    ensures forall i :: 0 <= i < |v.items| ==> Writable(v.items[i])
  {
  }

  lemma NothingOpen(begun: string)
    ensures begun == begun + OpenFields([]) + Comma(0) == begun + OpenItems([]) + Comma(0)
  {
  }

  lemma CommaIs(n: nat)
    ensures Comma(n) == if n > 0 then "," else ""
  {
  }

  lemma FieldText4(was: string, space: string, quoted: string, value: string)
    ensures was + space + quoted + " : " + value == was + (space + quoted + " : " + value)
  {
    AppendThree(was, space, quoted, " : ");
    AppendThree(was, space + quoted, " : ", value);
  }

  lemma FieldSpells(f: Features, ws: string, m: Member, d: Doc)
    requires AllSpace(ws) && '\0' !in m.name && Means(f, d, m.value)
    ensures Spells(f, Field(ws, Pieces(m.name), " ", Indented(" ", d), ""), m)
  {
    NamedField(f, ws, m, " ", " ", d);
  }
}
