/**
 * The presentation transformer (src/utils/transform.ts): a stored document is
 * turned into `{id, name, scientificName, img, description, isPremium, data:
 * [left, right]}` for one language, routing every other field to a pane by
 * the fixed key lists.
 */
module Transform {
  import opened Wrappers
  import opened Json
  import Translate

  // =====================================================================
  // The key lists

  const LeftKeys: seq<string> :=
    ["facts", "character", "applications", "dryness", "suitableForSkinTypes", "storageAndShelfLife"]

  const RightKeys: seq<string> :=
    ["article", "recommendations", "anecdote", "constituents", "properties", "healthBenefits", "dosage",
     "safety", "sustainability", "keyConstituents", "fattyAcidProfile", "skinBenefits",
     "ecologicalFootprint", "oilCombinations"]

  const QuoteKeys: seq<string> := ["anecdote", "sustainability"]

  /** The keys both loops skip. */
  predicate Ignored(key: string) {
    key == "buffer" || key == "__v"
  }

  // =====================================================================
  // isTranslatedTextSchema

  predicate AsciiLetter(c: char) {
    'a' <= c <= 'z' || 'A' <= c <= 'Z'
  }

  /** `/^[a-z]{2,3}$/i.test(key)` */
  predicate LanguageLikeKey(key: string) {
    2 <= |key| <= 3 && forall i :: 0 <= i < |key| ==> AsciiLetter(key[i])
  }

  /** `typeof obj[key] === "string" || Array.isArray(obj[key])` */
  predicate TextLike(o: Option<Json>) {
    o.Some? && (o.value.JStr? || o.value.JArr?)
  }

  /** The test `every` applies to one key. */
  predicate TextKey(obj: Json, key: string) {
    LanguageLikeKey(key) && TextLike(Get(obj, key))
  }

  /** `keys.every(...)`, from the first key on. */
  function EveryTextKey(obj: Json, keys: seq<string>): bool {
    keys == [] || (TextKey(obj, keys[0]) && EveryTextKey(obj, keys[1..]))
  }

  lemma {:induction false} EveryTextKeyAll(obj: Json, keys: seq<string>)
    ensures EveryTextKey(obj, keys) <==> forall i :: 0 <= i < |keys| ==> TextKey(obj, keys[i])
  {
    if keys != [] {
      EveryTextKeyAll(obj, keys[1..]);
      assert forall i :: 1 <= i < |keys| ==> keys[i] == keys[1..][i - 1];
    }
  }

  /**
   * isTranslatedTextSchema: a non-null, non-array object with at least one
   * key, every key two or three ASCII letters in either case, every value a
   * string or an array.
   */
  function IsTranslatedTextSchema(obj: Json): (b: bool)
    ensures b <==>
      IsPlainObject(obj) && |Props(obj)| > 0 &&
      forall i :: 0 <= i < |Props(obj)| ==> LanguageLikeKey(Props(obj)[i].0) && TextLike(Get(obj, Props(obj)[i].0))
  {
    if !IsObjectTyped(obj) || obj.JNull? || obj.JArr? then false
    else
      var keys := Keys(Props(obj));
      EveryTextKeyAll(obj, keys);
      |keys| > 0 && EveryTextKey(obj, keys)
  }

  /** A Buffer's keys are decimal indices, so it is never translated text. */
  lemma BufferIsNotText(b: seq<byte>)
    ensures !IsTranslatedTextSchema(JBuffer(b))
  {
    if |b| > 0 {
      var k := Props(JBuffer(b))[0].0;
      IndexKeyDigits(0);
      assert k == IndexKey(0) && k[0] in k;
    }
  }

  /** A Dutch string with an English list is translated text. */
  lemma TextSchemaAccepts()
    ensures IsTranslatedTextSchema(JObj([("nl", JStr("roos")), ("EN", JArr([]))]))
  {
    assert LanguageLikeKey("nl") && LanguageLikeKey("EN");
  }

  /** Neither an empty object, a non-language key, a number, an array nor null is translated text. */
  lemma TextSchemaRejects()
    ensures !IsTranslatedTextSchema(JObj([]))
    ensures !IsTranslatedTextSchema(JObj([("nl", JStr("roos")), ("text", JStr("x"))]))
    ensures !IsTranslatedTextSchema(JObj([("nl", JNum(1))]))
    ensures !IsTranslatedTextSchema(JArr([JStr("nl")]))
    ensures !IsTranslatedTextSchema(JNull)
  {
    assert !LanguageLikeKey("text");
  }

  // =====================================================================
  // getTranslated

  /** `field[language] || field["nl"] || ""` */
  function Fallback(field: Json, language: string): Json {
    if TruthyOpt(Get(field, language)) then Get(field, language).value
    else if TruthyOpt(Get(field, "nl")) then Get(field, "nl").value
    else JStr("")
  }

  /**
   * getTranslated: a string as it is; an array flat-mapped (string items
   * kept, others translated, an array result spliced in); an object (a
   * Buffer included) by its language key with Dutch and then "" as
   * fallbacks; anything else "". `null` is of type "object" too, and reading
   * `null[language]` throws.
   */
  function GetTranslated(field: Json, language: string): Result<Json>
    decreases field, 1
  {
    match field
    case JStr(_) => Success(field)
    case JArr(items) =>
      var spliced :- Spliced(field, language, 0);
      Success(JArr(spliced))
    case JObj(_) => Success(Fallback(field, language))
    case JBuffer(_) => Success(Fallback(field, language))
    case JNull => Failure(TypeError)
    case _ => Success(JStr(""))
  }

  /** `field.flatMap(...)` from item `i` on. */
  function Spliced(field: Json, language: string, i: nat): Result<seq<Json>>
    requires field.JArr? && i <= |field.items|
    decreases field, 0, |field.items| - i
  {
    if i == |field.items| then Success([])
    else
      var item := field.items[i];
      var piece :- if item.JStr? then Success([item]) else
        var t :- GetTranslated(item, language);
        Success(if t.JArr? then t.items else [t]);
      var rest :- Spliced(field, language, i + 1);
      Success(piece + rest)
  }

  /** A `null` reachable through arrays alone: what makes getTranslated throw. */
  predicate HasNull(v: Json) {
    match v
    case JNull => true
    case JArr(items) => exists i :: 0 <= i < |items| && HasNull(items[i])
    case _ => false
  }

  /** getTranslated throws exactly when a `null` is reachable through arrays, and then with a TypeError. */
  lemma {:induction false} TranslatedFails(field: Json, language: string)
    ensures GetTranslated(field, language).Failure? <==> HasNull(field)
    ensures GetTranslated(field, language).Failure? ==> GetTranslated(field, language).error == TypeError
    decreases field, 1
  {
    if field.JArr? {
      SplicedFails(field, language, 0);
    }
  }

  lemma {:induction false} SplicedFails(field: Json, language: string, i: nat)
    requires field.JArr? && i <= |field.items|
    ensures Spliced(field, language, i).Failure? <==> exists j :: i <= j < |field.items| && HasNull(field.items[j])
    ensures Spliced(field, language, i).Failure? ==> Spliced(field, language, i).error == TypeError
    decreases field, 0, |field.items| - i
  {
    if i < |field.items| {
      var item := field.items[i];
      TranslatedFails(item, language);
      SplicedFails(field, language, i + 1);
      if exists j :: i <= j < |field.items| && HasNull(field.items[j]) {
        var j :| i <= j < |field.items| && HasNull(field.items[j]);
        if j > i {
          assert i + 1 <= j;
        }
      }
    }
  }

  /** An array of strings flat-maps to itself. */
  lemma {:induction false} StringsUnchanged(field: Json, language: string, i: nat)
    requires field.JArr? && i <= |field.items|
    requires forall j :: i <= j < |field.items| ==> field.items[j].JStr?
    ensures Spliced(field, language, i) == Success(field.items[i..])
    decreases |field.items| - i
  {
    if i < |field.items| {
      StringsUnchanged(field, language, i + 1);
      assert field.items[i..] == [field.items[i]] + field.items[i + 1..];
    } else {
      assert field.items[i..] == [];
    }
  }

  /** getTranslated returns strings, and arrays of strings, unchanged. */
  lemma TranslatedText(field: Json, language: string)
    requires field.JStr? || (field.JArr? && forall j :: 0 <= j < |field.items| ==> field.items[j].JStr?)
    ensures GetTranslated(field, language) == Success(field)
  {
    if field.JArr? {
      StringsUnchanged(field, language, 0);
      assert field.items[0..] == field.items;
    }
  }

  /** Numbers and booleans are neither strings, arrays nor objects: they translate to "". */
  lemma ScalarTranslated(field: Json, language: string)
    requires field.JNum? || field.JBool?
    ensures GetTranslated(field, language) == Success(JStr(""))
  {
  }

  /**
   * When no item translates to an array, the flat-map is a plain map: item
   * `j` of the result is the translation of item `j`, strings kept as they are.
   */
  lemma {:induction false} SplicedPointwise(field: Json, language: string, i: nat)
    requires field.JArr? && i <= |field.items|
    requires forall j :: i <= j < |field.items| ==>
      GetTranslated(field.items[j], language).Success? && !GetTranslated(field.items[j], language).value.JArr?
    ensures Spliced(field, language, i).Success?
    ensures |Spliced(field, language, i).value| == |field.items| - i
    ensures forall j :: i <= j < |field.items| ==>
      Spliced(field, language, i).value[j - i] == GetTranslated(field.items[j], language).value
    decreases |field.items| - i
  {
    if i < |field.items| {
      SplicedPointwise(field, language, i + 1);
      var item := field.items[i];
      var rest := Spliced(field, language, i + 1).value;
      assert Spliced(field, language, i).value == [GetTranslated(item, language).value] + rest;
      forall j | i < j < |field.items|
        ensures Spliced(field, language, i).value[j - i] == GetTranslated(field.items[j], language).value
      {
        assert Spliced(field, language, i).value[j - i] == rest[j - (i + 1)];
      }
    }
  }

  /**
   * On an object, getTranslated is getTranslatedValue of translate.ts with a
   * final "" fallback; on a language wrapper whose slot is a non-empty string
   * it is that string.
   */
  lemma ObjectTranslated(field: Json, language: string)
    requires IsPlainObject(field)
    ensures Translate.GetTranslatedValue(field, language).Success?
    ensures var v := Translate.GetTranslatedValue(field, language).value;
      GetTranslated(field, language) == Success(if TruthyOpt(v) then v.value else JStr(""))
    ensures Get(field, language).Some? && Get(field, language).value.JStr? && Get(field, language).value.s != "" ==>
      GetTranslated(field, language) == Success(Get(field, language).value)
  {
  }

  /** What an absent property (`undefined`) translates to. */
  function TranslatedRead(o: Option<Json>, language: string): (r: Result<Json>)
    ensures o.None? ==> r == Success(JStr(""))
    ensures o.Some? ==> r == GetTranslated(o.value, language)
  {
    if o.None? then Success(JStr("")) else GetTranslated(o.value, language)
  }

  /** `val.map((item) => getTranslated(item, language))` */
  function MapTranslated(items: seq<Json>, language: string): (r: Result<seq<Json>>)
    ensures r.Success? <==> forall i :: 0 <= i < |items| ==> GetTranslated(items[i], language).Success?
    ensures r.Success? ==>
      |r.value| == |items| && forall i :: 0 <= i < |items| ==> r.value[i] == GetTranslated(items[i], language).value
    ensures r.Failure? ==> r.error == TypeError
  {
    if items == [] then Success([])
    else
      TranslatedFails(items[0], language);
      var head :- GetTranslated(items[0], language);
      var tail :- MapTranslated(items[1..], language);
      assert forall i :: 1 <= i < |items| ==> items[i] == items[1..][i - 1];
      Success([head] + tail)
  }

  lemma ItemsFail(items: seq<Json>, language: string)
    ensures (forall i :: 0 <= i < |items| ==> GetTranslated(items[i], language).Success?) <==>
      forall i :: 0 <= i < |items| ==> !HasNull(items[i])
  {
    forall i | 0 <= i < |items| {
      TranslatedFails(items[i], language);
    }
  }

  /** `Array.isArray(val) ? val.map(getTranslated) : getTranslated(val)`: arrays are mapped, not flattened. */
  function TranslateValue(val: Json, language: string): (r: Result<Json>)
    ensures val.JArr? ==> (r.Success? <==> forall i :: 0 <= i < |val.items| ==> !HasNull(val.items[i]))
    ensures val.JArr? && r.Success? ==> r.value.JArr? && |r.value.items| == |val.items|
    ensures !val.JArr? ==> r == GetTranslated(val, language)
    ensures r.Failure? ==> r.error == TypeError
  {
    if val.JArr? then
      ItemsFail(val.items, language);
      var mapped :- MapTranslated(val.items, language);
      Success(JArr(mapped))
    else
      TranslatedFails(val, language);
      GetTranslated(val, language)
  }

  // =====================================================================
  // transformFacts

  /** `Array.isArray(t) ? t[0] : t`; the first item of an empty array is `undefined`. */
  function FirstOrSelf(t: Json): (r: Option<Json>)
    ensures !t.JArr? ==> r == Some(t)
    ensures t.JArr? ==> (r.Some? <==> |t.items| > 0) && (r.Some? ==> r.value == t.items[0])
  {
    if !t.JArr? then Some(t) else if |t.items| > 0 then Some(t.items[0]) else None
  }

  /** `{ label, value }`; a `value` holding `undefined` is left out, as it reads the same. */
  function Fact(key: string, value: Option<Json>): Json {
    JObj([("label", JStr(key))] + (if value.Some? then [("value", value.value)] else []))
  }

  lemma FactFields(key: string, value: Option<Json>)
    ensures Get(Fact(key, value), "label") == Some(JStr(key))
    ensures Get(Fact(key, value), "value") == value
  {
    var e := Props(Fact(key, value));
    assert "label"[0] != "value"[0];
    FindIs(e, "label", 0);
    if value.Some? {
      FindIs(e, "value", 1);
    }
  }

  /** The facts of the entries from `ps` on, in entry order. */
  function FactsOf(ps: Entries, language: string): (r: Result<seq<Json>>)
    ensures r.Success? <==> forall i :: 0 <= i < |ps| ==> !HasNull(ps[i].1)
    ensures r.Success? ==> |r.value| == |ps| && forall i :: 0 <= i < |ps| ==>
      GetTranslated(ps[i].1, language).Success? &&
      r.value[i] == Fact(ps[i].0, FirstOrSelf(GetTranslated(ps[i].1, language).value))
    ensures r.Failure? ==> r.error == TypeError
  {
    if ps == [] then Success([])
    else
      TranslatedFails(ps[0].1, language);
      var t :- GetTranslated(ps[0].1, language);
      var rest :- FactsOf(ps[1..], language);
      assert forall i :: 1 <= i < |ps| ==> ps[i] == ps[1..][i - 1];
      Success([Fact(ps[0].0, FirstOrSelf(t))] + rest)
  }

  /**
   * transformFacts: one `{label, value}` per entry of `Object.entries(factsObj)`,
   * in entry order, the label being the key and the value the translation,
   * reduced to its first item when it is an array. `Object.entries(null)` throws.
   */
  function TransformFacts(factsObj: Json, language: string): (r: Result<seq<Json>>)
    ensures factsObj.JNull? ==> r == Failure(TypeError)
    ensures !factsObj.JNull? ==> r == FactsOf(Props(factsObj), language)
  {
    if factsObj.JNull? then Failure(TypeError) else FactsOf(Props(factsObj), language)
  }

  // =====================================================================
  // flattenNestedObject

  /** The loop of flattenNestedObject from entry `i` on, writing into `flat`. */
  function FlattenFrom(ps: Entries, language: string, i: nat, flat: Entries): Result<Entries>
    requires i <= |ps|
    decreases |ps| - i
  {
    if i == |ps| then Success(flat)
    else if Ignored(ps[i].0) then FlattenFrom(ps, language, i + 1, flat)
    else
      var x :- TranslateValue(ps[i].1, language);
      FlattenFrom(ps, language, i + 1, Put(flat, ps[i].0, x))
  }

  /** flattenNestedObject on all of `Object.entries(obj)`; `Object.entries(null)` throws. */
  function Flatten(obj: Json, language: string): Result<Entries> {
    if obj.JNull? then Failure(TypeError) else FlattenFrom(Props(obj), language, 0, [])
  }

  method FlattenNestedObject(obj: Json, language: string) returns (r: Result<Entries>)
    ensures r == Flatten(obj, language)
  {
    if obj.JNull? {
      return Failure(TypeError);
    }
    var entries := Props(obj);
    var flat: Entries := [];
    var i := 0;
    while i < |entries|
      invariant i <= |entries|
      invariant FlattenFrom(entries, language, i, flat) == FlattenFrom(entries, language, 0, [])
    {
      var key, val := entries[i].0, entries[i].1;
      if !Ignored(key) {
        var x := TranslateValue(val, language);
        if x.Failure? {
          return Failure(x.error);
        }
        flat := Put(flat, key, x.value);
      }
      i := i + 1;
    }
    r := Success(flat);
  }

  /** The keys from `i` on the loop keeps, in order. */
  function Kept(ps: Entries, i: nat): seq<string>
    requires i <= |ps|
    decreases |ps| - i
  {
    if i == |ps| then []
    else if Ignored(ps[i].0) then Kept(ps, i + 1)
    else [ps[i].0] + Kept(ps, i + 1)
  }

  /** The kept keys are the keys of the entries that are not skipped. */
  lemma {:induction false} KeptKeys(ps: Entries, i: nat, k: string)
    requires i <= |ps|
    ensures k in Kept(ps, i) <==> !Ignored(k) && exists j :: i <= j < |ps| && ps[j].0 == k
    decreases |ps| - i
  {
    if i < |ps| {
      KeptKeys(ps, i + 1, k);
      if exists j :: i <= j < |ps| && ps[j].0 == k {
        var j :| i <= j < |ps| && ps[j].0 == k;
        if j > i {
          assert i + 1 <= j;
        }
      }
    }
  }

  lemma {:induction false} FlattenFails(ps: Entries, language: string, i: nat, flat: Entries)
    requires i <= |ps|
    ensures FlattenFrom(ps, language, i, flat).Failure? ==> FlattenFrom(ps, language, i, flat).error == TypeError
    decreases |ps| - i
  {
    if i < |ps| {
      if Ignored(ps[i].0) {
        FlattenFails(ps, language, i + 1, flat);
      } else if TranslateValue(ps[i].1, language).Success? {
        FlattenFails(ps, language, i + 1, Put(flat, ps[i].0, TranslateValue(ps[i].1, language).value));
      }
    }
  }

  /** With distinct keys, the result holds the keys of `flat` followed by the kept keys, in entry order. */
  lemma {:induction false} FlattenKeys(ps: Entries, language: string, i: nat, flat: Entries)
    requires i <= |ps| && DistinctKeys(ps) && FlattenFrom(ps, language, i, flat).Success?
    requires forall j :: i <= j < |ps| ==> Find(flat, ps[j].0).None?
    ensures Keys(FlattenFrom(ps, language, i, flat).value) == Keys(flat) + Kept(ps, i)
    decreases |ps| - i
  {
    if i == |ps| {
      assert Keys(flat) + [] == Keys(flat);
    } else if Ignored(ps[i].0) {
      FlattenKeys(ps, language, i + 1, flat);
    } else {
      var x := TranslateValue(ps[i].1, language).value;
      PutStillAbsent(ps, i, flat, x);
      FlattenKeys(ps, language, i + 1, Put(flat, ps[i].0, x));
      KeysAppend(flat, ps[i].0, x, Kept(ps, i + 1));
    }
  }

  /** Writing a new key appends it to the keys. */
  lemma KeysAppend(flat: Entries, k: string, x: Json, later: seq<string>)
    requires Find(flat, k).None?
    ensures Keys(Put(flat, k, x)) + later == Keys(flat) + ([k] + later)
  {
    KeysPut(flat, k, x);
  }

  lemma PutStillAbsent(ps: Entries, i: nat, flat: Entries, x: Json)
    requires i < |ps| && DistinctKeys(ps)
    requires forall j :: i < j < |ps| ==> Find(flat, ps[j].0).None?
    ensures forall j :: i < j < |ps| ==> Find(Put(flat, ps[i].0, x), ps[j].0).None?
  {
    forall j | i < j < |ps|
      ensures Find(Put(flat, ps[i].0, x), ps[j].0).None?
    {
      LookupPut(flat, ps[i].0, x, ps[j].0);
    }
  }

  /** A key none of the remaining entries writes keeps its value. */
  lemma {:induction false} FlattenElsewhere(ps: Entries, language: string, i: nat, flat: Entries, k: string)
    requires i <= |ps| && FlattenFrom(ps, language, i, flat).Success?
    requires forall j :: i <= j < |ps| ==> ps[j].0 != k
    ensures Lookup(FlattenFrom(ps, language, i, flat).value, k) == Lookup(flat, k)
    decreases |ps| - i
  {
    if i < |ps| {
      if Ignored(ps[i].0) {
        FlattenElsewhere(ps, language, i + 1, flat, k);
      } else {
        var x := TranslateValue(ps[i].1, language).value;
        LookupPut(flat, ps[i].0, x, k);
        FlattenElsewhere(ps, language, i + 1, Put(flat, ps[i].0, x), k);
      }
    }
  }

  /** With distinct keys, every kept entry lands under its own key, translated. */
  lemma {:induction false} FlattenValue(ps: Entries, language: string, i: nat, flat: Entries, j: nat)
    requires i <= j < |ps| && DistinctKeys(ps) && FlattenFrom(ps, language, i, flat).Success? && !Ignored(ps[j].0)
    ensures TranslateValue(ps[j].1, language).Success?
    ensures Lookup(FlattenFrom(ps, language, i, flat).value, ps[j].0) == Some(TranslateValue(ps[j].1, language).value)
    decreases |ps| - i
  {
    if Ignored(ps[i].0) {
      FlattenValue(ps, language, i + 1, flat, j);
    } else {
      var x := TranslateValue(ps[i].1, language).value;
      if i == j {
        LookupPut(flat, ps[i].0, x, ps[i].0);
        FlattenElsewhere(ps, language, i + 1, Put(flat, ps[i].0, x), ps[i].0);
      } else {
        FlattenValue(ps, language, i + 1, Put(flat, ps[i].0, x), j);
      }
    }
  }

  /** No skipped key is written. */
  lemma {:induction false} FlattenNoIgnored(ps: Entries, language: string, i: nat, flat: Entries)
    requires i <= |ps| && FlattenFrom(ps, language, i, flat).Success?
    requires forall j :: 0 <= j < |flat| ==> !Ignored(flat[j].0)
    ensures forall j :: 0 <= j < |FlattenFrom(ps, language, i, flat).value| ==>
      !Ignored(FlattenFrom(ps, language, i, flat).value[j].0)
    decreases |ps| - i
  {
    if i < |ps| {
      if Ignored(ps[i].0) {
        FlattenNoIgnored(ps, language, i + 1, flat);
      } else {
        var x := TranslateValue(ps[i].1, language).value;
        PutAll(flat, ps[i].0, x, (kv: (string, Json)) => !Ignored(kv.0));
        FlattenNoIgnored(ps, language, i + 1, Put(flat, ps[i].0, x));
      }
    }
  }

  /**
   * flattenNestedObject of a well-formed object: its keys are exactly those
   * of the object without "buffer" and "__v", in order, each holding its
   * value translated (arrays element-wise); it throws only a TypeError.
   */
  lemma FlattenResult(obj: Json, language: string)
    requires WellFormed(obj)
    ensures Flatten(obj, language).Failure? ==> Flatten(obj, language).error == TypeError
    ensures Flatten(obj, language).Success? ==>
      Keys(Flatten(obj, language).value) == Kept(Props(obj), 0) &&
      forall j :: 0 <= j < |Props(obj)| && !Ignored(Props(obj)[j].0) ==>
        TranslateValue(Props(obj)[j].1, language).Success? &&
        Lookup(Flatten(obj, language).value, Props(obj)[j].0) == Some(TranslateValue(Props(obj)[j].1, language).value)
  {
    if !obj.JNull? {
      var ps := Props(obj);
      FlattenFails(ps, language, 0, []);
      if Flatten(obj, language).Success? {
        PropsWellFormed(obj);
        FlattenKeys(ps, language, 0, []);
        assert Keys([]) + Kept(ps, 0) == Kept(ps, 0);
        forall j | 0 <= j < |ps| && !Ignored(ps[j].0)
          ensures TranslateValue(ps[j].1, language).Success? &&
            Lookup(Flatten(obj, language).value, ps[j].0) == Some(TranslateValue(ps[j].1, language).value)
        {
          FlattenValue(ps, language, 0, [], j);
        }
      }
    }
  }

  // =====================================================================
  // transformItem

  /** The fields destructured out of `plant.toObject()`; the others form `rest`. */
  const HeaderKeys: seq<string> := ["id", "name", "scientificName", "img", "description", "isPremium"]

  /** `...rest`: the entries not destructured, in order. */
  function RestOf(e: Entries): (r: Entries)
    ensures forall j :: 0 <= j < |r| ==> r[j].0 !in HeaderKeys && r[j] in e
    ensures forall j :: 0 <= j < |e| && e[j].0 !in HeaderKeys ==> e[j] in r
  {
    if e == [] then []
    else
      var tail := RestOf(e[1..]);
      assert forall j :: 1 <= j < |e| ==> e[j] == e[1..][j - 1];
      if e[0].0 in HeaderKeys then tail else [e[0]] + tail
  }

  /** Where the loop of transformItem sends a field, in the order its tests run. */
  datatype Route =
    | Skip          // "buffer" and "__v"
    | Quote         // a quote key: `{text, isQuote: true}` on the right
    | Facts         // "facts": transformFacts on the left
    | LeftList      // another left key: translated on the left
    | TextRight     // translated text: translated on the right
    | SpreadRight   // any other non-array object (null included): its flattening merged into the right
    | ValueRight    // another right key: translated on the right
    | ValueLeft     // an unlisted key: translated on the left

  function RouteOf(key: string, value: Json): Route {
    if Ignored(key) then Skip
    else if key in QuoteKeys then Quote
    else if key == "facts" then Facts
    else if key in LeftKeys then LeftList
    else if IsTranslatedTextSchema(value) then TextRight
    else if IsObjectTyped(value) && !value.JArr? then SpreadRight
    else if key in RightKeys then ValueRight
    else ValueLeft
  }

  /** The quote test runs before the list tests: "anecdote" is a quote although it is a right key. */
  lemma QuoteFirst(value: Json)
    ensures "anecdote" in RightKeys && RouteOf("anecdote", value) == Quote
    ensures "sustainability" in RightKeys && RouteOf("sustainability", value) == Quote
    ensures RouteOf("buffer", value) == Skip && RouteOf("__v", value) == Skip
  {
  }

  /** "facts" goes through transformFacts; every other left key stays on the left whatever its value. */
  lemma LeftRoutes(key: string, value: Json)
    requires key in LeftKeys
    ensures RouteOf(key, value) == if key == "facts" then Facts else LeftList
  {
  }

  /** The two panes under construction. */
  datatype Panes = Panes(left: Entries, right: Entries)

  /** `Object.assign(target, source)`: every source entry written into the target, in order. */
  function AssignAll(target: Entries, source: Entries): Entries
    decreases |source|
  {
    if source == [] then target else AssignAll(Put(target, source[0].0, source[0].1), source[1..])
  }

  /** `{ text, isQuote: true }` */
  function QuoteOf(text: Json): Json {
    JObj([("text", text), ("isQuote", JBool(true))])
  }

  /** One iteration of the loop of transformItem. */
  function Place(key: string, value: Json, language: string, p: Panes): Result<Panes> {
    match RouteOf(key, value)
    case Skip => Success(p)
    case Quote =>
      var t :- GetTranslated(value, language);
      Success(p.(right := Put(p.right, key, QuoteOf(t))))
    case Facts =>
      var fs :- TransformFacts(value, language);
      Success(p.(left := Put(p.left, key, JArr(fs))))
    case LeftList =>
      var x :- TranslateValue(value, language);
      Success(p.(left := Put(p.left, key, x)))
    case TextRight =>
      var t :- GetTranslated(value, language);
      Success(p.(right := Put(p.right, key, t)))
    case SpreadRight =>
      var flat :- Flatten(value, language);
      Success(p.(right := AssignAll(p.right, flat)))
    case ValueRight =>
      var x :- TranslateValue(value, language);
      Success(p.(right := Put(p.right, key, x)))
    case ValueLeft =>
      var x :- TranslateValue(value, language);
      Success(p.(left := Put(p.left, key, x)))
  }

  /** The loop of transformItem from entry `i` of `rest` on. */
  function PanesFrom(rest: Entries, language: string, i: nat, p: Panes): Result<Panes>
    requires i <= |rest|
    decreases |rest| - i
  {
    if i == |rest| then Success(p)
    else
      var q :- Place(rest[i].0, rest[i].1, language, p);
      PanesFrom(rest, language, i + 1, q)
  }

  /** An object literal's entries; a property holding `undefined` is left out, as it reads the same. */
  function Present(fields: seq<(string, Option<Json>)>): Entries {
    if fields == [] then []
    else (if fields[0].1.Some? then [(fields[0].0, fields[0].1.value)] else []) + Present(fields[1..])
  }

  /** The header fields of `transformed`, in order, each possibly `undefined`. */
  function Header(plant: Json, name: Json, description: Json): seq<(string, Option<Json>)> {
    [("id", Get(plant, "id")), ("name", Some(name)), ("scientificName", Get(plant, "scientificName")),
     ("img", Get(plant, "img")), ("description", Some(description)), ("isPremium", Get(plant, "isPremium"))]
  }

  /** `transformed`, with `data` set last. */
  function Transformed(plant: Json, name: Json, description: Json, panes: Panes): Json
    requires plant.JObj?
  {
    JObj(Present(Header(plant, name, description)) + [("data", JArr([JObj(panes.left), JObj(panes.right)]))])
  }

  /** transformItem on a document already turned into a plain object; anything else is outside the model. */
  function TransformItemSpec(plant: Json, language: string): Result<Json> {
    if !plant.JObj? then Failure(OutsideModel)
    else
      var name :- TranslatedRead(Get(plant, "name"), language);
      var description :- TranslatedRead(Get(plant, "description"), language);
      var panes :- PanesFrom(RestOf(plant.entries), language, 0, Panes([], []));
      Success(Transformed(plant, name, description, panes))
  }

  /** The body of the loop: route the field, translate it and write it into its pane. */
  method PlaceField(key: string, value: Json, language: string, leftData: Entries, rightData: Entries)
    returns (r: Result<Panes>)
    ensures r == Place(key, value, language, Panes(leftData, rightData))
  {
    var route := RouteOf(key, value);
    match route
    case Skip =>
      r := Success(Panes(leftData, rightData));
    case Quote =>
      var text := GetTranslated(value, language);
      if text.Failure? {
        return Failure(text.error);
      }
      r := Success(Panes(leftData, Put(rightData, key, QuoteOf(text.value))));
    case Facts =>
      var facts := TransformFacts(value, language);
      if facts.Failure? {
        return Failure(facts.error);
      }
      r := Success(Panes(Put(leftData, key, JArr(facts.value)), rightData));
    case TextRight =>
      var text := GetTranslated(value, language);
      if text.Failure? {
        return Failure(text.error);
      }
      r := Success(Panes(leftData, Put(rightData, key, text.value)));
    case SpreadRight =>
      var flat := FlattenNestedObject(value, language);
      if flat.Failure? {
        return Failure(flat.error);
      }
      r := Success(Panes(leftData, AssignAll(rightData, flat.value)));
    case LeftList =>
      var x := TranslateValue(value, language);
      if x.Failure? {
        return Failure(x.error);
      }
      r := Success(Panes(Put(leftData, key, x.value), rightData));
    case ValueRight =>
      var x := TranslateValue(value, language);
      if x.Failure? {
        return Failure(x.error);
      }
      r := Success(Panes(leftData, Put(rightData, key, x.value)));
    case ValueLeft =>
      var x := TranslateValue(value, language);
      if x.Failure? {
        return Failure(x.error);
      }
      r := Success(Panes(Put(leftData, key, x.value), rightData));
  }

  /** transformItem: the header fields, then the loop over `rest` filling `leftData` and `rightData`. */
  method TransformItem(plant: Json, language: string) returns (r: Result<Json>)
    ensures r == TransformItemSpec(plant, language)
  {
    if !plant.JObj? {
      return Failure(OutsideModel);
    }
    var name := TranslatedRead(Get(plant, "name"), language);
    if name.Failure? {
      return Failure(name.error);
    }
    var description := TranslatedRead(Get(plant, "description"), language);
    if description.Failure? {
      return Failure(description.error);
    }
    var rest := RestOf(plant.entries);
    var leftData: Entries := [];
    var rightData: Entries := [];
    var i := 0;
    while i < |rest|
      invariant i <= |rest|
      invariant PanesFrom(rest, language, i, Panes(leftData, rightData)) == PanesFrom(rest, language, 0, Panes([], []))
    {
      var placed := PlaceField(rest[i].0, rest[i].1, language, leftData, rightData);
      if placed.Failure? {
        return Failure(placed.error);
      }
      leftData, rightData := placed.value.left, placed.value.right;
      i := i + 1;
    }
    r := Success(Transformed(plant, name.value, description.value, Panes(leftData, rightData)));
  }

  // ---------------------------------------------------------------------
  // What transformItem promises

  /** A key the left pane may hold: never skipped, never a quote, never a header field. */
  predicate LeftKey(k: string) {
    !Ignored(k) && k !in QuoteKeys && k !in HeaderKeys
  }

  /** The panes as the loop keeps them: plain objects (distinct keys) without "buffer" or "__v". */
  predicate PanesInvariant(p: Panes) {
    DistinctKeys(p.left) && DistinctKeys(p.right) &&
    (forall j :: 0 <= j < |p.left| ==> LeftKey(p.left[j].0)) &&
    (forall j :: 0 <= j < |p.right| ==> !Ignored(p.right[j].0))
  }

  lemma {:induction false} AssignAllInvariant(target: Entries, source: Entries)
    requires DistinctKeys(target) && forall j :: 0 <= j < |target| ==> !Ignored(target[j].0)
    requires forall j :: 0 <= j < |source| ==> !Ignored(source[j].0)
    ensures DistinctKeys(AssignAll(target, source))
    ensures forall j :: 0 <= j < |AssignAll(target, source)| ==> !Ignored(AssignAll(target, source)[j].0)
    decreases |source|
  {
    if source != [] {
      PutDistinct(target, source[0].0, source[0].1);
      PutAll(target, source[0].0, source[0].1, (kv: (string, Json)) => !Ignored(kv.0));
      assert forall j :: 1 <= j < |source| ==> source[j] == source[1..][j - 1];
      AssignAllInvariant(Put(target, source[0].0, source[0].1), source[1..]);
    }
  }

  /** The right pane after a spread: the flattening holds no skipped key. */
  lemma SpreadInvariant(value: Json, language: string, p: Panes)
    requires PanesInvariant(p) && Flatten(value, language).Success?
    ensures PanesInvariant(p.(right := AssignAll(p.right, Flatten(value, language).value)))
  {
    FlattenNoIgnored(Props(value), language, 0, []);
    AssignAllInvariant(p.right, Flatten(value, language).value);
  }

  lemma PutLeftInvariant(p: Panes, key: string, x: Json)
    requires PanesInvariant(p) && LeftKey(key)
    ensures PanesInvariant(p.(left := Put(p.left, key, x)))
  {
    PutDistinct(p.left, key, x);
    PutAll(p.left, key, x, (kv: (string, Json)) => LeftKey(kv.0));
  }

  lemma PutRightInvariant(p: Panes, key: string, x: Json)
    requires PanesInvariant(p) && !Ignored(key)
    ensures PanesInvariant(p.(right := Put(p.right, key, x)))
  {
    PutDistinct(p.right, key, x);
    PutAll(p.right, key, x, (kv: (string, Json)) => !Ignored(kv.0));
  }

  /** One step of the loop keeps the pane invariant, for a field of `rest`. */
  lemma PlaceInvariant(key: string, value: Json, language: string, p: Panes)
    requires key !in HeaderKeys && PanesInvariant(p)
    requires Place(key, value, language, p).Success?
    ensures PanesInvariant(Place(key, value, language, p).value)
  {
    match RouteOf(key, value)
    case Skip =>
    case SpreadRight =>
      SpreadInvariant(value, language, p);
    case Quote =>
      PutRightInvariant(p, key, QuoteOf(GetTranslated(value, language).value));
    case TextRight =>
      PutRightInvariant(p, key, GetTranslated(value, language).value);
    case ValueRight =>
      PutRightInvariant(p, key, TranslateValue(value, language).value);
    case Facts =>
      PutLeftInvariant(p, key, JArr(TransformFacts(value, language).value));
    case LeftList =>
      PutLeftInvariant(p, key, TranslateValue(value, language).value);
    case ValueLeft =>
      PutLeftInvariant(p, key, TranslateValue(value, language).value);
  }

  /** Every failure of one step is the TypeError of reading a property of null. */
  lemma PlaceFails(key: string, value: Json, language: string, p: Panes)
    ensures Place(key, value, language, p).Failure? ==> Place(key, value, language, p).error == TypeError
  {
    match RouteOf(key, value)
    case Skip =>
    case Facts =>
    case SpreadRight =>
      if !value.JNull? {
        FlattenFails(Props(value), language, 0, []);
      }
    case Quote =>
      TranslatedFails(value, language);
    case TextRight =>
      TranslatedFails(value, language);
    case LeftList =>
    case ValueRight =>
    case ValueLeft =>
  }

  lemma {:induction false} PanesFromInvariant(rest: Entries, language: string, i: nat, p: Panes)
    requires i <= |rest| && PanesInvariant(p)
    requires forall j :: 0 <= j < |rest| ==> rest[j].0 !in HeaderKeys
    ensures PanesFrom(rest, language, i, p).Failure? ==> PanesFrom(rest, language, i, p).error == TypeError
    ensures PanesFrom(rest, language, i, p).Success? ==> PanesInvariant(PanesFrom(rest, language, i, p).value)
    decreases |rest| - i
  {
    if i < |rest| {
      PlaceFails(rest[i].0, rest[i].1, language, p);
      if Place(rest[i].0, rest[i].1, language, p).Success? {
        PlaceInvariant(rest[i].0, rest[i].1, language, p);
        PanesFromInvariant(rest, language, i + 1, Place(rest[i].0, rest[i].1, language, p).value);
      }
    }
  }

  lemma LookupCons(h: (string, Json), tail: Entries, k: string)
    requires h.0 != k
    ensures Lookup([h] + tail, k) == Lookup(tail, k)
  {
    assert ([h] + tail)[1..] == tail;
  }

  lemma {:induction false} PresentAbsent(fields: seq<(string, Option<Json>)>, tail: Entries, k: string)
    requires forall f :: f in fields ==> f.0 != k
    ensures Lookup(Present(fields) + tail, k) == Lookup(tail, k)
  {
    if fields != [] {
      assert fields == [fields[0]] + fields[1..];
      PresentAbsent(fields[1..], tail, k);
      if fields[0].1.Some? {
        assert Present(fields) + tail == [(fields[0].0, fields[0].1.value)] + (Present(fields[1..]) + tail);
        LookupCons((fields[0].0, fields[0].1.value), Present(fields[1..]) + tail, k);
      } else {
        assert Present(fields) == Present(fields[1..]);
      }
    } else {
      assert Present(fields) + tail == tail;
    }
  }

  /** A property of an object literal reads its given value; an `undefined` one reads through to what follows. */
  lemma {:induction false} PresentLookup(fields: seq<(string, Option<Json>)>, tail: Entries, j: nat)
    requires j < |fields| && forall i :: 0 <= i < |fields| && i != j ==> fields[i].0 != fields[j].0
    ensures Lookup(Present(fields) + tail, fields[j].0) ==
      if fields[j].1.Some? then fields[j].1 else Lookup(tail, fields[j].0)
  {
    var k := fields[j].0;
    assert forall i :: 0 <= i < |fields[1..]| ==> fields[1..][i] == fields[i + 1];
    if j == 0 {
      assert forall f :: f in fields[1..] ==> f.0 != k;
      PresentAbsent(fields[1..], tail, k);
      if fields[0].1.Some? {
        assert Present(fields) + tail == [(k, fields[0].1.value)] + (Present(fields[1..]) + tail);
        FindIs(Present(fields) + tail, k, 0);
      } else {
        assert Present(fields) == Present(fields[1..]);
      }
    } else {
      PresentLookup(fields[1..], tail, j - 1);
      if fields[0].1.Some? {
        assert Present(fields) + tail == [(fields[0].0, fields[0].1.value)] + (Present(fields[1..]) + tail);
        LookupCons((fields[0].0, fields[0].1.value), Present(fields[1..]) + tail, k);
      } else {
        assert Present(fields) == Present(fields[1..]);
      }
    }
  }

  /** Six fields named as the header keys read back their own values, before a tail of other keys. */
  lemma FieldsLookup(fields: seq<(string, Option<Json>)>, tail: Entries)
    requires |fields| == 6 && forall j :: 0 <= j < 6 ==> fields[j].0 == HeaderKeys[j]
    requires forall i :: 0 <= i < |tail| ==> tail[i].0 !in HeaderKeys
    ensures forall j :: 0 <= j < 6 ==> Lookup(Present(fields) + tail, HeaderKeys[j]) == fields[j].1
  {
    forall j | 0 <= j < 6
      ensures Lookup(Present(fields) + tail, HeaderKeys[j]) == fields[j].1
    {
      PresentLookup(fields, tail, j);
    }
  }

  /** The header of `transformed`: the copied fields and the translated name and description. */
  lemma HeaderLookup(plant: Json, name: Json, description: Json, panes: Panes)
    requires plant.JObj?
    ensures var e := Transformed(plant, name, description, panes).entries;
      Lookup(e, "id") == Get(plant, "id") && Lookup(e, "scientificName") == Get(plant, "scientificName") &&
      Lookup(e, "img") == Get(plant, "img") && Lookup(e, "isPremium") == Get(plant, "isPremium") &&
      Lookup(e, "name") == Some(name) && Lookup(e, "description") == Some(description)
  {
    var fields := Header(plant, name, description);
    var e := Transformed(plant, name, description, panes).entries;
    FieldsLookup(fields, [("data", JArr([JObj(panes.left), JObj(panes.right)]))]);
    assert Lookup(e, HeaderKeys[0]) == fields[0].1 && Lookup(e, HeaderKeys[1]) == fields[1].1;
    assert Lookup(e, HeaderKeys[2]) == fields[2].1 && Lookup(e, HeaderKeys[3]) == fields[3].1;
    assert Lookup(e, HeaderKeys[4]) == fields[4].1 && Lookup(e, HeaderKeys[5]) == fields[5].1;
  }

  /** `transformed` ends with `data`, the left pane then the right one. */
  lemma TransformedData(plant: Json, name: Json, description: Json, panes: Panes)
    requires plant.JObj?
    ensures var e := Transformed(plant, name, description, panes).entries;
      |e| > 0 && e[|e| - 1] == ("data", JArr([JObj(panes.left), JObj(panes.right)]))
  {
  }

  /**
   * transformItem: a document that is not a plain object is outside the
   * model, every other failure is a TypeError, and a result is an object
   * whose last property is `data` with the two panes, both keeping the
   * pane invariant.
   */
  lemma TransformItemShape(plant: Json, language: string)
    ensures !plant.JObj? ==> TransformItemSpec(plant, language) == Failure(OutsideModel)
    ensures plant.JObj? && TransformItemSpec(plant, language).Failure? ==>
      TransformItemSpec(plant, language).error == TypeError
    ensures TransformItemSpec(plant, language).Success? ==>
      var r := TransformItemSpec(plant, language).value;
      r.JObj? && |r.entries| > 0 && r.entries[|r.entries| - 1].0 == "data" &&
      var data := r.entries[|r.entries| - 1].1;
      data.JArr? && |data.items| == 2 && data.items[0].JObj? && data.items[1].JObj? &&
      PanesInvariant(Panes(data.items[0].entries, data.items[1].entries))
  {
    if plant.JObj? {
      TranslatedFails(Get(plant, "name").GetOr(JNull), language);
      TranslatedFails(Get(plant, "description").GetOr(JNull), language);
      var panes := PanesFrom(RestOf(plant.entries), language, 0, Panes([], []));
      PanesFromInvariant(RestOf(plant.entries), language, 0, Panes([], []));
      if TransformItemSpec(plant, language).Success? {
        TransformedData(plant, TranslatedRead(Get(plant, "name"), language).value,
          TranslatedRead(Get(plant, "description"), language).value, panes.value);
      }
    }
  }

  /**
   * The header of a transformed item: `id`, `scientificName`, `img` and
   * `isPremium` are copied (absent stays absent), `name` and `description`
   * are translated, "" when absent.
   */
  lemma TransformItemHeader(plant: Json, language: string)
    requires TransformItemSpec(plant, language).Success?
    ensures plant.JObj?
    ensures var r := TransformItemSpec(plant, language).value;
      Get(r, "id") == Get(plant, "id") && Get(r, "scientificName") == Get(plant, "scientificName") &&
      Get(r, "img") == Get(plant, "img") && Get(r, "isPremium") == Get(plant, "isPremium") &&
      Get(r, "name") == Some(TranslatedRead(Get(plant, "name"), language).value) &&
      Get(r, "description") == Some(TranslatedRead(Get(plant, "description"), language).value)
  {
    var r := TransformItemSpec(plant, language).value;
    assert forall k :: Get(r, k) == Lookup(r.entries, k);
    HeaderLookup(plant, TranslatedRead(Get(plant, "name"), language).value,
      TranslatedRead(Get(plant, "description"), language).value,
      PanesFrom(RestOf(plant.entries), language, 0, Panes([], [])).value);
  }

  // ---------------------------------------------------------------------
  // What transformItem puts in its panes

  /** The routes that write a field under its own key of the left pane. */
  predicate LeftRoute(r: Route) {
    r.Facts? || r.LeftList? || r.ValueLeft?
  }

  /**
   * What the field `(key, value)` writes under `key` of the left pane when
   * its step succeeds: its facts for "facts", else its translation. None for
   * a field routed elsewhere, or whose step throws.
   */
  function LeftWrite(key: string, value: Json, language: string): Option<Json> {
    match RouteOf(key, value)
    case Facts =>
      (match TransformFacts(value, language) case Success(fs) => Some(JArr(fs)) case Failure(_) => None)
    case LeftList =>
      (match TranslateValue(value, language) case Success(x) => Some(x) case Failure(_) => None)
    case ValueLeft =>
      (match TranslateValue(value, language) case Success(x) => Some(x) case Failure(_) => None)
    case _ => None
  }

  /**
   * What the field `(key, value)` writes under property `k` of the right
   * pane when its step succeeds: a quote, text or right-key field its
   * translation under its own key, a spread field the flattening's value of
   * `k`. None when it writes nothing there.
   */
  function RightWrite(key: string, value: Json, language: string, k: string): Option<Json> {
    match RouteOf(key, value)
    case Quote =>
      if key != k then None
      else (match GetTranslated(value, language) case Success(t) => Some(QuoteOf(t)) case Failure(_) => None)
    case TextRight =>
      if key != k then None
      else (match GetTranslated(value, language) case Success(t) => Some(t) case Failure(_) => None)
    case ValueRight =>
      if key != k then None
      else (match TranslateValue(value, language) case Success(x) => Some(x) case Failure(_) => None)
    case SpreadRight =>
      (match Flatten(value, language) case Success(flat) => Lookup(flat, k) case Failure(_) => None)
    case _ => None
  }

  /** The keys of the left-routed fields from `i` on, in order. */
  function LeftKeysOf(rest: Entries, i: nat): seq<string>
    requires i <= |rest|
    decreases |rest| - i
  {
    if i == |rest| then []
    else if LeftRoute(RouteOf(rest[i].0, rest[i].1)) then [rest[i].0] + LeftKeysOf(rest, i + 1)
    else LeftKeysOf(rest, i + 1)
  }

  /** The last field from `i` on that writes property `k` of the right pane. */
  function LastRightFrom(rest: Entries, language: string, k: string, i: nat): (r: Option<nat>)
    requires i <= |rest|
    ensures r.Some? ==> i <= r.value < |rest| && RightWrite(rest[r.value].0, rest[r.value].1, language, k).Some?
    ensures r.Some? ==> forall m :: r.value < m < |rest| ==> RightWrite(rest[m].0, rest[m].1, language, k).None?
    ensures r.None? ==> forall m :: i <= m < |rest| ==> RightWrite(rest[m].0, rest[m].1, language, k).None?
    decreases |rest| - i
  {
    if i == |rest| then None
    else match LastRightFrom(rest, language, k, i + 1)
      case Some(m) => Some(m)
      case None => if RightWrite(rest[i].0, rest[i].1, language, k).Some? then Some(i) else None
  }

  lemma {:induction false} FlattenDistinct(ps: Entries, language: string, i: nat, flat: Entries)
    requires i <= |ps| && DistinctKeys(flat) && FlattenFrom(ps, language, i, flat).Success?
    ensures DistinctKeys(FlattenFrom(ps, language, i, flat).value)
    decreases |ps| - i
  {
    if i < |ps| {
      if Ignored(ps[i].0) {
        FlattenDistinct(ps, language, i + 1, flat);
      } else {
        var x := TranslateValue(ps[i].1, language).value;
        PutDistinct(flat, ps[i].0, x);
        FlattenDistinct(ps, language, i + 1, Put(flat, ps[i].0, x));
      }
    }
  }

  /** `Object.assign` from a plain object: each of its properties overwrites the target's. */
  lemma {:induction false} AssignAllLookup(target: Entries, source: Entries, k: string)
    requires DistinctKeys(source)
    ensures Lookup(AssignAll(target, source), k) ==
      if Lookup(source, k).Some? then Lookup(source, k) else Lookup(target, k)
    decreases |source|
  {
    if source != [] {
      var h := source[0];
      assert source == [h] + source[1..];
      AssignAllLookup(Put(target, h.0, h.1), source[1..], k);
      LookupPut(target, h.0, h.1, k);
      if h.0 == k {
        assert Find(source[1..], k).None?;
        FindIs(source, k, 0);
      } else {
        LookupCons(h, source[1..], k);
      }
    }
  }

  /** One step writes the left pane only under its own key, with `LeftWrite`. */
  lemma PlaceLeft(key: string, value: Json, language: string, p: Panes, k: string)
    requires Place(key, value, language, p).Success?
    ensures LeftRoute(RouteOf(key, value)) ==> LeftWrite(key, value, language).Some?
    ensures Lookup(Place(key, value, language, p).value.left, k) ==
      if key == k && LeftWrite(key, value, language).Some? then LeftWrite(key, value, language)
      else Lookup(p.left, k)
  {
    match RouteOf(key, value)
    case Facts =>
      LookupPut(p.left, key, JArr(TransformFacts(value, language).value), k);
    case LeftList =>
      LookupPut(p.left, key, TranslateValue(value, language).value, k);
    case ValueLeft =>
      LookupPut(p.left, key, TranslateValue(value, language).value, k);
    case Skip =>
    case Quote =>
    case TextRight =>
    case SpreadRight =>
    case ValueRight =>
  }

  /** One step writes the right pane with `RightWrite`, leaving every other property alone. */
  lemma PlaceRight(key: string, value: Json, language: string, p: Panes, k: string)
    requires Place(key, value, language, p).Success?
    ensures Lookup(Place(key, value, language, p).value.right, k) ==
      if RightWrite(key, value, language, k).Some? then RightWrite(key, value, language, k)
      else Lookup(p.right, k)
  {
    match RouteOf(key, value)
    case Quote =>
      LookupPut(p.right, key, QuoteOf(GetTranslated(value, language).value), k);
    case TextRight =>
      LookupPut(p.right, key, GetTranslated(value, language).value, k);
    case ValueRight =>
      LookupPut(p.right, key, TranslateValue(value, language).value, k);
    case SpreadRight =>
      FlattenDistinct(Props(value), language, 0, []);
      AssignAllLookup(p.right, Flatten(value, language).value, k);
    case Skip =>
    case Facts =>
    case LeftList =>
    case ValueLeft =>
  }

  /** A key no remaining field names keeps its value in the left pane. */
  lemma {:induction false} LeftElsewhere(rest: Entries, language: string, i: nat, p: Panes, k: string)
    requires i <= |rest| && PanesFrom(rest, language, i, p).Success?
    requires forall m :: i <= m < |rest| ==> rest[m].0 != k
    ensures Lookup(PanesFrom(rest, language, i, p).value.left, k) == Lookup(p.left, k)
    decreases |rest| - i
  {
    if i < |rest| {
      PlaceLeft(rest[i].0, rest[i].1, language, p, k);
      LeftElsewhere(rest, language, i + 1, Place(rest[i].0, rest[i].1, language, p).value, k);
    }
  }

  /** With distinct keys, a left-routed field's key holds what that field wrote. */
  lemma {:induction false} LeftAt(rest: Entries, language: string, i: nat, p: Panes, j: nat)
    requires i <= j < |rest| && DistinctKeys(rest) && PanesFrom(rest, language, i, p).Success?
    requires LeftRoute(RouteOf(rest[j].0, rest[j].1))
    ensures LeftWrite(rest[j].0, rest[j].1, language).Some?
    ensures Lookup(PanesFrom(rest, language, i, p).value.left, rest[j].0) == LeftWrite(rest[j].0, rest[j].1, language)
    decreases |rest| - i
  {
    var q := Place(rest[i].0, rest[i].1, language, p).value;
    PlaceLeft(rest[i].0, rest[i].1, language, p, rest[j].0);
    if i == j {
      LeftElsewhere(rest, language, i + 1, q, rest[j].0);
    } else {
      LeftAt(rest, language, i + 1, q, j);
    }
  }

  /** With distinct keys, the left pane's keys are those of `p` followed by the left-routed fields' keys. */
  lemma {:induction false} LeftKeysFrom(rest: Entries, language: string, i: nat, p: Panes)
    requires i <= |rest| && DistinctKeys(rest) && PanesFrom(rest, language, i, p).Success?
    requires forall m :: i <= m < |rest| ==> Find(p.left, rest[m].0).None?
    ensures Keys(PanesFrom(rest, language, i, p).value.left) == Keys(p.left) + LeftKeysOf(rest, i)
    decreases |rest| - i
  {
    if i == |rest| {
      assert Keys(p.left) + [] == Keys(p.left);
    } else {
      var q := Place(rest[i].0, rest[i].1, language, p).value;
      if LeftRoute(RouteOf(rest[i].0, rest[i].1)) {
        var x := LeftWrite(rest[i].0, rest[i].1, language).value;
        PlaceLeft(rest[i].0, rest[i].1, language, p, rest[i].0);
        assert q.left == Put(p.left, rest[i].0, x);
        PutStillAbsent(rest, i, p.left, x);
        LeftKeysFrom(rest, language, i + 1, q);
        KeysAppend(p.left, rest[i].0, x, LeftKeysOf(rest, i + 1));
      } else {
        assert q.left == p.left;
        LeftKeysFrom(rest, language, i + 1, q);
      }
    }
  }

  /** Last writer wins in the right pane: property `k` holds what the last field writing it wrote. */
  lemma {:induction false} RightFrom(rest: Entries, language: string, i: nat, p: Panes, k: string)
    requires i <= |rest| && PanesFrom(rest, language, i, p).Success?
    ensures Lookup(PanesFrom(rest, language, i, p).value.right, k) ==
      match LastRightFrom(rest, language, k, i)
      case Some(m) => RightWrite(rest[m].0, rest[m].1, language, k)
      case None => Lookup(p.right, k)
    decreases |rest| - i
  {
    if i < |rest| {
      PlaceRight(rest[i].0, rest[i].1, language, p, k);
      RightFrom(rest, language, i + 1, Place(rest[i].0, rest[i].1, language, p).value, k);
    }
  }

  lemma RestDistinct(e: Entries)
    requires DistinctKeys(e)
    ensures DistinctKeys(RestOf(e))
  {
    if e != [] {
      RestDistinct(e[1..]);
      var tail := RestOf(e[1..]);
      assert forall j :: 0 <= j < |tail| ==> tail[j] in e[1..];
    }
  }

  /** The routes that write a field's translation under its own key of the right pane. */
  predicate OwnRightRoute(r: Route) {
    r.Quote? || r.TextRight? || r.ValueRight?
  }

  /** No spread field after field `j` carries field `j`'s key in its flattening. */
  predicate NoLaterSpread(rest: Entries, language: string, j: nat)
    requires j < |rest|
  {
    forall m :: j < m < |rest| && RouteOf(rest[m].0, rest[m].1) == SpreadRight ==>
      RightWrite(rest[m].0, rest[m].1, language, rest[j].0).None?
  }

  /** In a loop that succeeds, every field routed to its own right key writes there. */
  lemma {:induction false} RightWrites(rest: Entries, language: string, i: nat, p: Panes, j: nat)
    requires i <= j < |rest| && PanesFrom(rest, language, i, p).Success?
    requires OwnRightRoute(RouteOf(rest[j].0, rest[j].1))
    ensures RightWrite(rest[j].0, rest[j].1, language, rest[j].0).Some?
    decreases |rest| - i
  {
    if i < j {
      RightWrites(rest, language, i + 1, Place(rest[i].0, rest[i].1, language, p).value, j);
    }
  }

  /** With distinct keys and no later spread carrying its key, a field routed to its own right key is the last writer there. */
  lemma RightAt(rest: Entries, language: string, j: nat)
    requires j < |rest| && DistinctKeys(rest) && PanesFrom(rest, language, 0, Panes([], [])).Success?
    requires OwnRightRoute(RouteOf(rest[j].0, rest[j].1))
    requires NoLaterSpread(rest, language, j)
    ensures LastRightFrom(rest, language, rest[j].0, 0) == Some(j)
  {
    var k := rest[j].0;
    RightWrites(rest, language, 0, Panes([], []), j);
    forall m | j < m < |rest|
      ensures RightWrite(rest[m].0, rest[m].1, language, k).None?
    {
      assert rest[m].0 != k;
    }
  }

  /** Where the panes of `transformed` come from. */
  lemma TransformItemData(plant: Json, language: string)
    requires TransformItemSpec(plant, language).Success?
    ensures plant.JObj? && ItemPanes(plant, language).Success?
    ensures var panes := ItemPanes(plant, language).value;
      Get(TransformItemSpec(plant, language).value, "data") == Some(JArr([JObj(panes.left), JObj(panes.right)]))
  {
    var name := TranslatedRead(Get(plant, "name"), language).value;
    var description := TranslatedRead(Get(plant, "description"), language).value;
    var panes := PanesFrom(RestOf(plant.entries), language, 0, Panes([], [])).value;
    var data := ("data", JArr([JObj(panes.left), JObj(panes.right)]));
    var fields := Header(plant, name, description);
    PresentAbsent(fields, [data], "data");
    FindIs([data], "data", 0);
    GetWord(Transformed(plant, name, description, panes), "data");
  }

  /** The panes the loop of transformItem builds, for a document that is a plain object. */
  function ItemPanes(plant: Json, language: string): Result<Panes>
    requires plant.JObj?
  {
    PanesFrom(RestOf(plant.entries), language, 0, Panes([], []))
  }

  /**
   * The left pane of transformItem, for a document with distinct keys: it
   * holds exactly the fields of `rest` routed left, in order; `facts` as its
   * transformFacts and every other one (a left key or an unlisted key) as
   * its translation.
   */
  lemma TransformItemLeft(plant: Json, language: string)
    requires plant.JObj? && DistinctKeys(plant.entries) && ItemPanes(plant, language).Success?
    ensures var rest := RestOf(plant.entries);
      var left := ItemPanes(plant, language).value.left;
      Keys(left) == LeftKeysOf(rest, 0) &&
      (forall j :: 0 <= j < |rest| && RouteOf(rest[j].0, rest[j].1) == Facts ==>
        TransformFacts(rest[j].1, language).Success? &&
        Lookup(left, rest[j].0) == Some(JArr(TransformFacts(rest[j].1, language).value))) &&
      (forall j :: 0 <= j < |rest| && RouteOf(rest[j].0, rest[j].1) in {LeftList, ValueLeft} ==>
        TranslateValue(rest[j].1, language).Success? &&
        Lookup(left, rest[j].0) == Some(TranslateValue(rest[j].1, language).value))
  {
    var rest := RestOf(plant.entries);
    var left := ItemPanes(plant, language).value.left;
    RestDistinct(plant.entries);
    LeftKeysFrom(rest, language, 0, Panes([], []));
    assert Keys([]) + LeftKeysOf(rest, 0) == LeftKeysOf(rest, 0);
    forall j | 0 <= j < |rest| && LeftRoute(RouteOf(rest[j].0, rest[j].1))
      ensures LeftWrite(rest[j].0, rest[j].1, language).Some?
      ensures Lookup(left, rest[j].0) == LeftWrite(rest[j].0, rest[j].1, language)
    {
      LeftAt(rest, language, 0, Panes([], []), j);
    }
  }

  /**
   * The right pane of transformItem, for a document with distinct keys:
   * last writer wins, so every property holds what the last field writing it
   * wrote (its translation, or its flattening's value of that key), and a
   * property no field writes is absent.
   */
  lemma TransformItemRight(plant: Json, language: string, k: string)
    requires plant.JObj? && ItemPanes(plant, language).Success?
    ensures Lookup(ItemPanes(plant, language).value.right, k) ==
      match LastRightFrom(RestOf(plant.entries), language, k, 0)
      case Some(m) => RightWrite(RestOf(plant.entries)[m].0, RestOf(plant.entries)[m].1, language, k)
      case None => None
  {
    RightFrom(RestOf(plant.entries), language, 0, Panes([], []), k);
  }

  /**
   * A quote field of `rest` is `{text, isQuote: true}` in the right pane,
   * and a translated-text or right-key field its translation, unless a later
   * spread field's flattening carries the same key.
   */
  lemma TransformItemRightField(plant: Json, language: string, j: nat)
    requires plant.JObj? && DistinctKeys(plant.entries) && ItemPanes(plant, language).Success?
    requires j < |RestOf(plant.entries)| && NoLaterSpread(RestOf(plant.entries), language, j)
    ensures var f := RestOf(plant.entries)[j];
      var right := ItemPanes(plant, language).value.right;
      (RouteOf(f.0, f.1) == Quote ==>
         GetTranslated(f.1, language).Success? &&
         Lookup(right, f.0) == Some(QuoteOf(GetTranslated(f.1, language).value))) &&
      (RouteOf(f.0, f.1) == TextRight ==>
         GetTranslated(f.1, language).Success? &&
         Lookup(right, f.0) == Some(GetTranslated(f.1, language).value)) &&
      (RouteOf(f.0, f.1) == ValueRight ==>
         TranslateValue(f.1, language).Success? &&
         Lookup(right, f.0) == Some(TranslateValue(f.1, language).value))
  {
    var rest := RestOf(plant.entries);
    if OwnRightRoute(RouteOf(rest[j].0, rest[j].1)) {
      RestDistinct(plant.entries);
      RightAt(rest, language, j);
      RightFrom(rest, language, 0, Panes([], []), rest[j].0);
    }
  }

  /**
   * transformItem on a document with distinct keys, both panes: `data` holds the
   * left and the right pane of the loop over `rest`; the left one holds
   * exactly the fields routed left, in order, each as its facts or its
   * translation; in the right one every property holds what the last field
   * writing it wrote, and nothing else is there.
   */
  lemma TransformItemPanes(plant: Json, language: string)
    requires plant.JObj? && DistinctKeys(plant.entries) && TransformItemSpec(plant, language).Success?
    ensures ItemPanes(plant, language).Success?
    ensures var panes := ItemPanes(plant, language).value;
      Get(TransformItemSpec(plant, language).value, "data") == Some(JArr([JObj(panes.left), JObj(panes.right)]))
    ensures var rest := RestOf(plant.entries);
      var left := ItemPanes(plant, language).value.left;
      Keys(left) == LeftKeysOf(rest, 0) &&
      (forall j :: 0 <= j < |rest| && RouteOf(rest[j].0, rest[j].1) == Facts ==>
        TransformFacts(rest[j].1, language).Success? &&
        Lookup(left, rest[j].0) == Some(JArr(TransformFacts(rest[j].1, language).value))) &&
      (forall j :: 0 <= j < |rest| && RouteOf(rest[j].0, rest[j].1) in {LeftList, ValueLeft} ==>
        TranslateValue(rest[j].1, language).Success? &&
        Lookup(left, rest[j].0) == Some(TranslateValue(rest[j].1, language).value))
    ensures var rest := RestOf(plant.entries);
      var right := ItemPanes(plant, language).value.right;
      forall k :: Lookup(right, k) ==
        match LastRightFrom(rest, language, k, 0)
        case Some(m) => RightWrite(rest[m].0, rest[m].1, language, k)
        case None => None
  {
    TransformItemData(plant, language);
    TransformItemLeft(plant, language);
    forall k
      ensures Lookup(ItemPanes(plant, language).value.right, k) ==
        match LastRightFrom(RestOf(plant.entries), language, k, 0)
        case Some(m) => RightWrite(RestOf(plant.entries)[m].0, RestOf(plant.entries)[m].1, language, k)
        case None => None
    {
      TransformItemRight(plant, language, k);
    }
  }
}
