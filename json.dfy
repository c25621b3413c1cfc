/**
 * JSON-like trees as the TypeScript code sees them, with the handful of
 * JavaScript property semantics the core relies on: `for...in` /
 * `Object.entries` enumeration order, property reads (`o[k]`, undefined
 * when absent) and property writes (`o[k] = x`).
 */
module Json {
  import opened Wrappers

  newtype byte = x: int | 0 <= x < 256

  /** A JavaScript value of a stored document. `JBuffer` stands for a Node `Buffer`. */
  datatype Json =
    | JStr(s: string)
    | JNum(n: int)
    | JBool(b: bool)
    | JNull
    | JArr(items: seq<Json>)
    | JObj(entries: seq<(string, Json)>)
    | JBuffer(bytes: seq<byte>)

  /** The own properties of an object, in insertion order. */
  type Entries = seq<(string, Json)>

  /** `typeof v === "object"` */
  predicate IsObjectTyped(v: Json) {
    v.JNull? || v.JArr? || v.JObj? || v.JBuffer?
  }

  /** `typeof v === "object" && v !== null && !Array.isArray(v)` */
  predicate IsPlainObject(v: Json) {
    v.JObj? || v.JBuffer?
  }

  /** JavaScript truthiness (`if (v)`, `v || w`). */
  predicate Truthy(v: Json) {
    match v
    case JStr(s) => s != ""
    case JNum(n) => n != 0
    case JBool(b) => b
    case JNull => false
    case _ => true
  }

  /** Truthiness of a property read, where `undefined` is falsy. */
  predicate TruthyOpt(v: Option<Json>) {
    v.Some? && Truthy(v.value)
  }

  // ---------------------------------------------------------------------
  // Decimal index keys: `for...in` over an array yields "0", "1", ...

  function Digit(d: nat): char
    requires d < 10
  {
    (48 + d) as char
  }

  /** `String(i)` for a non-negative integer. */
  function IndexKey(i: nat): string
    decreases i
  {
    if i < 10 then [Digit(i)] else IndexKey(i / 10) + [Digit(i % 10)]
  }

  lemma {:induction false} IndexKeyDigits(i: nat)
    ensures 0 < |IndexKey(i)| && (i < 10 <==> |IndexKey(i)| == 1)
    ensures forall c :: c in IndexKey(i) ==> '0' <= c <= '9'
    decreases i
  {
    if i >= 10 {
      IndexKeyDigits(i / 10);
      assert IndexKey(i) == IndexKey(i / 10) + [Digit(i % 10)];
    }
  }

  lemma {:induction false} IndexKeyInjective(i: nat, j: nat)
    requires IndexKey(i) == IndexKey(j)
    ensures i == j
    decreases i
  {
    IndexKeyDigits(i);
    IndexKeyDigits(j);
    if i >= 10 && j >= 10 {
      var ki, kj := IndexKey(i), IndexKey(j);
      assert ki == IndexKey(i / 10) + [Digit(i % 10)];
      assert kj == IndexKey(j / 10) + [Digit(j % 10)];
      assert ki[|ki| - 1] == Digit(i % 10) && kj[|kj| - 1] == Digit(j % 10);
      assert ki[..|ki| - 1] == IndexKey(i / 10);
      assert kj[..|kj| - 1] == IndexKey(j / 10);
      IndexKeyInjective(i / 10, j / 10);
    } else {
      assert IndexKey(i)[0] == Digit(i) && IndexKey(j)[0] == Digit(j);
    }
  }

  /** No index key is a word of letters (such as a language tag). */
  lemma IndexKeyIsNotWord(i: nat, k: string)
    requires 0 < |k| && !('0' <= k[0] <= '9')
    ensures IndexKey(i) != k
  {
    IndexKeyDigits(i);
    assert IndexKey(i)[0] in IndexKey(i);
  }

  // ---------------------------------------------------------------------
  // Property enumeration, reads and writes

  /** The `[key, value]` pairs `for...in` and `Object.entries` visit, in order. */
  function Props(v: Json): Entries {
    match v
    case JObj(e) => e
    case JArr(a) => ArrayProps(a)
    case JStr(s) => seq(|s|, i requires 0 <= i < |s| => (IndexKey(i), JStr([s[i]])))
    case JBuffer(b) => seq(|b|, i requires 0 <= i < |b| => (IndexKey(i), JNum(b[i] as int)))
    case _ => []
  }

  /** An array's properties: its index keys with its items. */
  function ArrayProps(a: seq<Json>): Entries {
    seq(|a|, i requires 0 <= i < |a| => (IndexKey(i), a[i]))
  }

  function Keys(ps: Entries): (ks: seq<string>)
    ensures |ks| == |ps| && forall i :: 0 <= i < |ps| ==> ks[i] == ps[i].0
  {
    seq(|ps|, i requires 0 <= i < |ps| => ps[i].0)
  }

  /** The position of the first entry named `k`. */
  function Find(ps: Entries, k: string): (r: Option<nat>)
    ensures r.Some? ==> r.value < |ps| && ps[r.value].0 == k
    ensures r.Some? ==> forall j :: 0 <= j < r.value ==> ps[j].0 != k
    ensures r.None? ==> forall j :: 0 <= j < |ps| ==> ps[j].0 != k
  {
    if |ps| == 0 then None
    else if ps[0].0 == k then Some(0)
    else match Find(ps[1..], k)
      case Some(p) => Some(p + 1)
      case None => None
  }

  lemma FindIs(ps: Entries, k: string, i: nat)
    requires i < |ps| && ps[i].0 == k
    requires forall j :: 0 <= j < i ==> ps[j].0 != k
    ensures Find(ps, k) == Some(i)
  {
  }

  function Lookup(ps: Entries, k: string): Option<Json> {
    match Find(ps, k)
    case Some(p) => Some(ps[p].1)
    case None => None
  }

  /** `v[k]`: the value of property `k`, or None for `undefined`. */
  function Get(v: Json, k: string): Option<Json> {
    Lookup(Props(v), k)
  }

  /** A word key (one that is not an index) names a property of objects only. */
  lemma GetWord(v: Json, k: string)
    requires 0 < |k| && !('0' <= k[0] <= '9')
    ensures Get(v, k) == if v.JObj? then Lookup(v.entries, k) else None
  {
    if !v.JObj? {
      forall i: nat | i < |Props(v)|
        ensures Props(v)[i].0 != k
      {
        IndexKeyIsNotWord(i, k);
      }
    }
  }

  /**
   * `v[k]` for a word key `k`: only objects have such a property. Models
   * read plain fields through this rather than Get, which enumerates
   * every kind of value (see FieldIsGet).
   */
  function Field(v: Json, k: string): Option<Json> {
    if v.JObj? then Lookup(v.entries, k) else None
  }

  lemma FieldIsGet(v: Json, k: string)
    requires 0 < |k| && !('0' <= k[0] <= '9')
    ensures Field(v, k) == Get(v, k)
  {
    GetWord(v, k);
  }

  /** `o[k] = x` on a plain object: replace the value in place, or append a new entry. */
  function Put(e: Entries, k: string, x: Json): Entries {
    match Find(e, k)
    case Some(p) => e[p := (k, x)]
    case None => e + [(k, x)]
  }

  /**
   * `v[k] = x`. None when JavaScript would throw (a primitive, null or
   * undefined in strict mode) or when the write has no JSON-tree counterpart
   * (a new slot of an array, a Buffer).
   */
  function Set(v: Json, k: string, x: Json): Option<Json> {
    match v
    case JObj(e) => Some(JObj(Put(e, k, x)))
    case JArr(a) =>
      (match Find(Props(v), k)
       case Some(p) => Some(JArr(a[p := x]))
       case None => None)
    case _ => None
  }

  /** A second write to the same key replaces the first: `o[k] = x; o[k] = y` is `o[k] = y`. */
  lemma PutOver(e: Entries, k: string, x: Json, y: Json)
    ensures Put(Put(e, k, x), k, y) == Put(e, k, y)
  {
    match Find(e, k)
    case Some(p) =>
      FindIs(e[p := (k, x)], k, p);
      assert e[p := (k, x)][p := (k, y)] == e[p := (k, y)];
    case None =>
      FindIs(e + [(k, x)], k, |e|);
      assert (e + [(k, x)])[|e| := (k, y)] == e + [(k, y)];
  }

  lemma {:induction false} LookupPut(e: Entries, k: string, x: Json, k': string)
    ensures Lookup(Put(e, k, x), k') == if k' == k then Some(x) else Lookup(e, k')
  {
    var e' := Put(e, k, x);
    match Find(e, k)
    case Some(p) =>
      if k' == k {
        FindIs(e', k, p);
      } else {
        match Find(e, k')
        case Some(q) => FindIs(e', k', q);
        case None =>
      }
    case None =>
      if k' == k {
        FindIs(e', k, |e|);
      } else {
        match Find(e, k')
        case Some(q) => FindIs(e', k', q);
        case None =>
      }
  }

  lemma KeysPut(e: Entries, k: string, x: Json)
    ensures Find(e, k).Some? ==> Keys(Put(e, k, x)) == Keys(e)
    ensures Find(e, k).None? ==> Keys(Put(e, k, x)) == Keys(e) + [k]
  {
  }

  lemma {:induction false} GetSet(v: Json, k: string, x: Json, k': string)
    requires Set(v, k, x).Some?
    ensures Get(Set(v, k, x).value, k') == if k' == k then Some(x) else Get(v, k')
  {
    match v
    case JObj(e) => LookupPut(e, k, x, k');
    case JArr(a) =>
      var p := Find(Props(v), k).value;
      var v' := JArr(a[p := x]);
      assert forall j :: 0 <= j < |a| ==> Props(v')[j].0 == Props(v)[j].0;
      match Find(Props(v), k')
      case Some(q) =>
        FindIs(Props(v'), k', q);
        if q == p { assert k' == k; }
      case None =>
        assert Find(Props(v'), k').None?;
  }

  /** A write keeps a property every entry has, when the new entry has it too. */
  lemma PutAll(e: Entries, k: string, x: Json, p: ((string, Json)) -> bool)
    requires forall i :: 0 <= i < |e| ==> p(e[i])
    requires p((k, x))
    ensures forall i :: 0 <= i < |Put(e, k, x)| ==> p(Put(e, k, x)[i])
  {
  }

  /** A write never creates a second property of the same name. */
  lemma PutDistinct(e: Entries, k: string, x: Json)
    requires DistinctKeys(e)
    ensures DistinctKeys(Put(e, k, x))
  {
  }

  /** Writing back the value a property already holds changes nothing. */
  lemma SetSame(v: Json, k: string)
    requires (v.JObj? || v.JArr?) && Get(v, k).Some?
    ensures Set(v, k, Get(v, k).value) == Some(v)
  {
    match v
    case JObj(e) =>
      var p := Find(e, k).value;
      assert e[p := (k, e[p].1)] == e;
    case JArr(a) =>
      var p := Find(Props(v), k).value;
      assert a[p := a[p]] == a;
  }

  // ---------------------------------------------------------------------
  // A size measure for recursion over `Props`

  function Sum(s: seq<nat>): nat {
    if s == [] then 0 else s[0] + Sum(s[1..])
  }

  lemma {:induction false} SumBound(s: seq<nat>, i: nat)
    requires i < |s|
    ensures s[i] <= Sum(s)
  {
    if i > 0 {
      SumBound(s[1..], i - 1);
    }
  }

  function Size(v: Json): nat {
    match v
    case JArr(a) => 1 + Sum(seq(|a|, i requires 0 <= i < |a| => Size(a[i])))
    case JObj(e) => 1 + Sum(seq(|e|, i requires 0 <= i < |e| => Size(e[i].1)))
    case JBuffer(b) => 1 + |b|
    case _ => 1
  }

  /** Children of containers are smaller; a string's one-character children are not objects. */
  lemma ChildSmaller(v: Json, i: nat)
    requires i < |Props(v)|
    ensures !v.JStr? ==> Size(Props(v)[i].1) < Size(v)
    ensures IsObjectTyped(Props(v)[i].1) ==> Size(Props(v)[i].1) < Size(v)
  {
    match v
    case JArr(a) =>
      SumBound(seq(|a|, j requires 0 <= j < |a| => Size(a[j])), i);
    case JObj(e) =>
      SumBound(seq(|e|, j requires 0 <= j < |e| => Size(e[j].1)), i);
    case _ =>
  }

  // ---------------------------------------------------------------------
  // Well-formedness: a JavaScript object never holds two properties of one name

  predicate DistinctKeys(e: Entries) {
    forall i, j :: 0 <= i < j < |e| ==> e[i].0 != e[j].0
  }

  predicate WellFormed(v: Json) {
    match v
    case JObj(e) => DistinctKeys(e) && forall i :: 0 <= i < |e| ==> WellFormed(e[i].1)
    case JArr(a) => forall i :: 0 <= i < |a| ==> WellFormed(a[i])
    case _ => true
  }

  lemma PropsWellFormed(v: Json)
    requires WellFormed(v)
    ensures DistinctKeys(Props(v))
    ensures forall i :: 0 <= i < |Props(v)| ==> WellFormed(Props(v)[i].1)
  {
    if !v.JObj? {
      forall i, j | 0 <= i < j < |Props(v)|
        ensures Props(v)[i].0 != Props(v)[j].0
      {
        if Props(v)[i].0 == Props(v)[j].0 {
          IndexKeyInjective(i, j);
        }
      }
    }
  }

  /** Every property read of a well-formed value gives a well-formed value. */
  lemma GetWellFormed(v: Json, k: string)
    requires WellFormed(v) && Get(v, k).Some?
    ensures WellFormed(Get(v, k).value)
  {
    PropsWellFormed(v);
    var p := Find(Props(v), k).value;
    assert Get(v, k).value == Props(v)[p].1;
  }

  /** In a well-formed value, reading the key of an enumerated property gives its value. */
  lemma GetProp(v: Json, i: nat)
    requires WellFormed(v) && i < |Props(v)|
    ensures Get(v, Props(v)[i].0) == Some(Props(v)[i].1)
  {
    PropsWellFormed(v);
    FindIs(Props(v), Props(v)[i].0, i);
  }
}
