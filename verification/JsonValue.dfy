/** JSON values as jsoncpp keeps them: integers with a signed or unsigned tag, C strings, dense arrays,
    and objects as a map ordered by `strcmp`. A character stands for one byte. */
module JsonValue {
  import opened Common

  const MIN_INT64 := -0x8000_0000_0000_0000
  const MAX_INT32 := 0x7fff_ffff
  const TWO_63 := 0x8000_0000_0000_0000
  const TWO_64 := 0x1_0000_0000_0000_0000

  /** A double is represented by the text it was scanned from. */
  datatype Value =
    | Null | Bool(b: bool) | Int(i: int) | UInt(u: int) | Real(token: string) | Str(s: string)
    | Arr(items: seq<Value>) | Obj(members: seq<Member>)

  datatype Member = Member(name: string, value: Value)

  // ---- Objects as ordered maps --------------------------------------------

  /** `strcmp` as a strict order. */
  predicate Less(a: string, b: string)
  {
    b != [] && (a == [] || a[0] < b[0] || (a[0] == b[0] && Less(a[1..], b[1..])))
  }

  lemma {:induction false} LessTotal(a: string, b: string)
    ensures Less(a, b) || a == b || Less(b, a)
    ensures !(Less(a, b) && Less(b, a)) && !Less(a, a)
  {
    if a != [] && b != [] && a[0] == b[0] {
      LessTotal(a[1..], b[1..]);
      assert a == [a[0]] + a[1..] && b == [b[0]] + b[1..];
    }
    if a != [] { LessTotal(a[1..], a[1..]); }
  }

  /** It is the order of the first difference, a text coming before the ones that go on from it. */
  ghost predicate Differs(a: string, b: string, i: nat)
  {
    i <= |a| && i < |b| && a[..i] == b[..i] && (i == |a| || a[i] < b[i])
  }

  lemma {:induction false} LessIs(a: string, b: string)
    ensures Less(a, b) <==> exists i :: Differs(a, b, i)
  {
    if Less(a, b) {
      var i := FirstDifference(a, b);
    }
    if i :| Differs(a, b, i) { DifferenceDecides(a, b, i); }
  }

  lemma {:induction false} FirstDifference(a: string, b: string) returns (i: nat)
    requires Less(a, b)
    ensures Differs(a, b, i)
  {
    if a == [] || a[0] < b[0] {
      i := 0;
    } else {
      i := FirstDifference(a[1..], b[1..]);
      assert a[..i + 1] == [a[0]] + a[1..][..i] && b[..i + 1] == [b[0]] + b[1..][..i];
      i := i + 1;
    }
  }

  lemma {:induction false} DifferenceDecides(a: string, b: string, i: nat)
    requires Differs(a, b, i)
    ensures Less(a, b)
  {
    if i > 0 {
      assert a[..i][0] == b[..i][0];
      assert a[1..][..i - 1] == a[..i][1..] && b[1..][..i - 1] == b[..i][1..];
      DifferenceDecides(a[1..], b[1..], i - 1);
    }
  }

  lemma {:induction false} LessTransitive(a: string, b: string, c: string)
    requires Less(a, b) && Less(b, c)
    ensures Less(a, c)
  {
    if a != [] && a[0] == b[0] == c[0] { LessTransitive(a[1..], b[1..], c[1..]); }
  }

  predicate Sorted(ms: seq<Member>)
  {
    forall i, j :: 0 <= i < j < |ms| ==> Less(ms[i].name, ms[j].name)
  }

  function Find(ms: seq<Member>, name: string): Option<Value>
  {
    if ms == [] then None else if ms[0].name == name then Some(ms[0].value) else Find(ms[1..], name)
  }

  /** Store `v` under `name`: over the entry of that name, or at its place in the order. */
  function Put(ms: seq<Member>, name: string, v: Value): seq<Member>
  {
    if ms == [] then [Member(name, v)]
    else if ms[0].name == name then [Member(name, v)] + ms[1..]
    else if Less(name, ms[0].name) then [Member(name, v)] + ms
    else [ms[0]] + Put(ms[1..], name, v)
  }

  lemma {:induction false} PutNames(ms: seq<Member>, name: string, v: Value, i: nat)
    requires i < |Put(ms, name, v)|
    ensures Put(ms, name, v)[i].name == name || exists j :: 0 <= j < |ms| && ms[j].name == Put(ms, name, v)[i].name
  {
    var r := Put(ms, name, v);
    if ms == [] || ms[0].name == name {
      if i > 0 { assert r[i] == ms[i]; }
    } else if Less(name, ms[0].name) {
      if i > 0 { assert r[i] == ms[i - 1]; }
    } else if i == 0 {
      assert r[0] == ms[0];
    } else {
      PutNames(ms[1..], name, v, i - 1);
    }
  }

  lemma {:induction false} PutSorted(ms: seq<Member>, name: string, v: Value)
    requires Sorted(ms)
    ensures Sorted(Put(ms, name, v))
  {
    var r := Put(ms, name, v);
    if ms == [] {
    } else if ms[0].name == name {
    } else if Less(name, ms[0].name) {
      forall i, j | 0 <= i < j < |r| ensures Less(r[i].name, r[j].name) {
        if i == 0 && j > 1 { LessTransitive(name, ms[0].name, ms[j - 1].name); }
      }
    } else {
      LessTotal(name, ms[0].name);
      PutSorted(ms[1..], name, v);
      forall j | 1 <= j < |r| ensures Less(r[0].name, r[j].name) {
        PutNames(ms[1..], name, v, j - 1);
      }
    }
  }

  /** An object is a map: what was put is found, and nothing else changes. */
  lemma {:induction false} PutFind(ms: seq<Member>, name: string, v: Value, other: string)
    requires Sorted(ms)
    ensures Find(Put(ms, name, v), other) == if other == name then Some(v) else Find(ms, other)
  {
    if ms != [] && ms[0].name != name && !Less(name, ms[0].name) {
      PutFind(ms[1..], name, v, other);
    } else if ms != [] {
      assert Put(ms, name, v)[1..] == if ms[0].name == name then ms[1..] else ms;
    }
  }

  /** Adding names in order adds at the end. */
  lemma {:induction false} PutLast(ms: seq<Member>, m: Member)
    requires Sorted(ms + [m])
    ensures Put(ms, m.name, m.value) == ms + [m]
  {
    if ms != [] {
      var r := ms + [m];
      assert Less(r[0].name, r[|ms|].name);
      LessTotal(ms[0].name, m.name);
      forall i, j | 0 <= i < j < |ms[1..] + [m]|
        ensures Less((ms[1..] + [m])[i].name, (ms[1..] + [m])[j].name)
      {
        assert (ms[1..] + [m])[i] == r[i + 1] && (ms[1..] + [m])[j] == r[j + 1];
      }
      PutLast(ms[1..], m);
    }
  }

  // ---- Values that can be written and read back ----------------------------

  /** 64-bit integers, NUL-free strings, objects in map order; no doubles. */
  predicate Writable(v: Value)
  {
    match v
    case Null => true
    case Bool(_) => true
    case Int(i) => MIN_INT64 <= i < TWO_63
    case UInt(u) => 0 <= u < TWO_64
    case Real(_) => false
    case Str(s) => '\0' !in s
    case Arr(items) => forall i :: 0 <= i < |items| ==> Writable(items[i])
    case Obj(ms) => Sorted(ms) && forall i :: 0 <= i < |ms| ==> '\0' !in ms[i].name && Writable(ms[i].value)
  }

  /** The same value with each integer under the tag the reader chooses: signed when it is negative or
      fits 31 bits, unsigned otherwise. */
  function Norm(v: Value): Value
  {
    match v
    case Int(i) => IntValue(i)
    case UInt(u) => IntValue(u)
    case Arr(items) => Arr(NormAll(items))
    case Obj(ms) => Obj(NormMembers(ms))
    case _ => v
  }

  function IntValue(n: int): Value { if n <= MAX_INT32 then Int(n) else UInt(n) }

  function NormAll(items: seq<Value>): (r: seq<Value>)
    ensures |r| == |items| && forall i :: 0 <= i < |items| ==> r[i] == Norm(items[i])
  {
    if items == [] then [] else [Norm(items[0])] + NormAll(items[1..])
  }

  function NormMembers(ms: seq<Member>): (r: seq<Member>)
    ensures |r| == |ms| && forall i :: 0 <= i < |ms| ==> r[i] == Member(ms[i].name, Norm(ms[i].value))
  {
    if ms == [] then [] else [Member(ms[0].name, Norm(ms[0].value))] + NormMembers(ms[1..])
  }

  // ---- Decimal ------------------------------------------------------------

  function Digit(d: int): char
    requires 0 <= d < 10
  {
    '0' + d as char
  }

  function Decimal(n: nat): string
  {
    if n < 10 then [Digit(n)] else Decimal(n / 10) + [Digit(n % 10)]
  }

  function IntText(n: int): string { if n < 0 then "-" + Decimal(-n) else Decimal(n) }

  function Pow10(k: nat): nat { if k == 0 then 1 else 10 * Pow10(k - 1) }

  /** A number below 10^k has at most k digits. */
  lemma {:induction false} DecimalLength(n: nat, k: nat)
    requires k > 0 && n < Pow10(k)
    ensures 1 <= |Decimal(n)| <= k
  {
    if n >= 10 { DecimalLength(n / 10, k - 1); }
  }
}
