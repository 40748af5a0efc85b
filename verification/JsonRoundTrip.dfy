/** Writing and reading back: through either writer, in either YAML mode, whatever layout was chosen. */
module JsonRoundTrip {
  import opened Common
  import opened JsonValue
  import opened JsonParse
  import opened JsonDoc
  import opened JsonReader
  import opened JsonWriter
  import opened JsonStyled

  /** Equal values, integers compared by number. */
  predicate Same(v: Value, w: Value)
  {
    match v
    case Int(i) => (w.Int? && w.i == i) || (w.UInt? && w.u == i)
    case UInt(u) => (w.Int? && w.i == u) || (w.UInt? && w.u == u)
    case Arr(items) => w.Arr? && |w.items| == |items| && forall i :: 0 <= i < |items| ==> Same(items[i], w.items[i])
    case Obj(ms) =>
      w.Obj? && |w.members| == |ms| &&
      forall i :: 0 <= i < |ms| ==> ms[i].name == w.members[i].name && Same(ms[i].value, w.members[i].value)
    case _ => v == w
  }

  /** Two values have the same normal form exactly when they are equal but for integer tags. */
  lemma {:induction false} NormDecides(v: Value, w: Value)
    ensures Norm(v) == Norm(w) <==> Same(v, w)
    decreases v
  {
    if v.Arr? && w.Arr? && |v.items| == |w.items| {
      forall i | 0 <= i < |v.items| ensures Norm(v.items[i]) == Norm(w.items[i]) <==> Same(v.items[i], w.items[i]) {
        NormDecides(v.items[i], w.items[i]);
      }
      PointwiseItems(v.items, w.items);
    } else if v.Obj? && w.Obj? && |v.members| == |w.members| {
      forall i | 0 <= i < |v.members|
        ensures Norm(v.members[i].value) == Norm(w.members[i].value) <==> Same(v.members[i].value, w.members[i].value)
      {
        NormDecides(v.members[i].value, w.members[i].value);
      }
      PointwiseMembers(v.members, w.members);
    }
  }

  lemma PointwiseItems(a: seq<Value>, b: seq<Value>)
    requires |a| == |b|
    ensures NormAll(a) == NormAll(b) <==> forall i :: 0 <= i < |a| ==> Norm(a[i]) == Norm(b[i])
  {
    hide Norm;
    if NormAll(a) == NormAll(b) {
      forall i | 0 <= i < |a| ensures Norm(a[i]) == Norm(b[i]) { assert NormAll(a)[i] == NormAll(b)[i]; }
    }
  }

  lemma PointwiseMembers(a: seq<Member>, b: seq<Member>)
    requires |a| == |b|
    ensures NormMembers(a) == NormMembers(b) <==>
      forall i :: 0 <= i < |a| ==> a[i].name == b[i].name && Norm(a[i].value) == Norm(b[i].value)
  {
    hide Norm;
    if NormMembers(a) == NormMembers(b) {
      forall i | 0 <= i < |a| ensures a[i].name == b[i].name && Norm(a[i].value) == Norm(b[i].value) {
        assert NormMembers(a)[i] == NormMembers(b)[i];
      }
    }
  }

  /** A document that means a value reads as that value, newline after it or not. */
  lemma MeaningReads(f: Features, d: Doc, v: Value, tail: string)
    requires Means(f, d, v) && (tail == "" || tail == "\n") && (f.strictRoot ==> v.Arr? || v.Obj?)
    ensures Parse(f, Render(d) + tail) == Some(Norm(v))
  {
    DocumentReads(f, d, tail);
  }

  /** The compact form of every writable value reads back as the value, under any features that let its
      root be a root. */
  lemma CompactReads(f: Features, v: Value, yaml: bool)
    requires Writable(v) && (f.strictRoot ==> v.Arr? || v.Obj?)
    ensures Parse(f, Render(FastDoc(v, yaml)) + "\n") == Some(Norm(v))
  {
    FastMeans(f, v, yaml);
    MeaningReads(f, FastDoc(v, yaml), v, "\n");
  }

  /** Compact forms tell values apart: equal texts come only from values equal but for integer tags,
      whichever YAML modes they were written in. */
  lemma CompactIsFaithful(v: Value, w: Value, yaml: bool, yaml': bool)
    requires Writable(v) && Writable(w)
    ensures Render(FastDoc(v, yaml)) == Render(FastDoc(w, yaml')) ==> Same(v, w)
  {
    var f := Features(true, false, (text: string) => true);
    CompactReads(f, v, yaml);
    CompactReads(f, w, yaml');
    NormDecides(v, w);
  }

  /** The two printers agree: what both print is read as the same value, the one printed. */
  method WriteBoth(v: Value, yaml: bool, ghost f: Features) returns (compact: string, pretty: string)
    requires Writable(v) && (f.strictRoot ==> v.Arr? || v.Obj?)
    ensures Parse(f, compact) == Parse(f, pretty) == Some(Norm(v))
  {
    var fast := new FastWriter();
    if yaml { fast.EnableYAMLCompatibility(); }
    compact := fast.Write(v);
    CompactReads(f, v, yaml);
    var styled := new StyledWriter();
    ghost var d;
    pretty, d := styled.Write(v, f);
    MeaningReads(f, d, v, "\n");
  }

  /** Writing with either writer and reading with the reader gives the value back, with no error reported. */
  method RoundTrip(v: Value, features: Features, yaml: bool, styled: bool) returns (ok: bool, back: Value)
    requires Writable(v) && (features.strictRoot ==> v.Arr? || v.Obj?)
    ensures ok && Same(v, back) && back == Norm(v)
  {
    var compact, pretty := WriteBoth(v, yaml, features);
    var reader := new Reader(features);
    ok, back := reader.ParseDocument(if styled then pretty else compact);
    NormTwice(v);
    NormDecides(v, Norm(v));
  }

  lemma {:induction false} NormTwice(v: Value)
    ensures Norm(Norm(v)) == Norm(v)
  {
    if v.Arr? {
      forall i | 0 <= i < |v.items| ensures Norm(NormAll(v.items)[i]) == Norm(v.items[i]) { NormTwice(v.items[i]); }
      PointwiseItems(NormAll(v.items), v.items);
    } else if v.Obj? {
      var ms := NormMembers(v.members);
      forall i | 0 <= i < |ms|
        ensures ms[i].name == v.members[i].name && Norm(ms[i].value) == Norm(v.members[i].value)
      {
        NormTwice(v.members[i].value);
      }
      PointwiseMembers(ms, v.members);
    }
  }
}
