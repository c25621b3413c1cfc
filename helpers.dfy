/**
 * Projection of a stored multilingual document onto one language, re-wrapping
 * of a projection under a language tag, and the deep merge that writes it back
 * (src/utils/encyclopedia_helper_functions.ts).
 */
module EncyclopediaHelpers {
  import opened Wrappers
  import opened Json
  import opened Languages

  // =====================================================================
  // extractValues

  /** Fields extractValues never copies: Buffers and the storage keys `_id` and `__v`. */
  predicate Skipped(key: string, val: Json) {
    val.JBuffer? || key == "_id" || key == "__v"
  }

  /** `typeof w == 'string' || (Array.isArray(w) && w.length != 0)` */
  predicate Qualifies(w: Option<Json>) {
    w.Some? && (w.value.JStr? || (w.value.JArr? && |w.value.items| != 0))
  }

  /** The position of the first supported-language key, where the subkey loop breaks. */
  function FirstSupported(ks: seq<string>): (r: Option<nat>)
    ensures r.Some? ==> r.value < |ks| && IsSupported(ks[r.value])
    ensures r.Some? ==> forall j :: 0 <= j < r.value ==> !IsSupported(ks[j])
    ensures r.None? ==> forall j :: 0 <= j < |ks| ==> !IsSupported(ks[j])
  {
    if ks == [] then None
    else if IsSupported(ks[0]) then Some(0)
    else match FirstSupported(ks[1..])
      case Some(p) => Some(p + 1)
      case None => None
  }

  /** `if (!json) json = {}; json[key] = v;` on the accumulator, where JNull is `null`. */
  function Attach(json: Json, key: string, v: Json): (r: Json)
    ensures r.JObj? && |r.entries| > 0
  {
    var e := if json.JObj? then json.entries else [];
    JObj(Put(e, key, v))
  }

  /** What extractValues returns for `obj` and language `lang`: null or a non-empty object. */
  function Extraction(obj: Json, lang: Language): (r: Json)
    ensures r.JNull? || (r.JObj? && |r.entries| > 0)
    decreases Size(obj), 2, 0
  {
    if obj.JBuffer? then JNull else ExtractFrom(obj, lang, 0, JNull)
  }

  /** The outer `for (const key in obj)` loop, from property `i` on, with accumulator `json`. */
  function ExtractFrom(obj: Json, lang: Language, i: nat, json: Json): (r: Json)
    requires i <= |Props(obj)|
    requires json.JNull? || (json.JObj? && |json.entries| > 0)
    ensures r.JNull? || (r.JObj? && |r.entries| > 0)
    decreases Size(obj), 1, |Props(obj)| - i
  {
    if i == |Props(obj)| then json
    else ExtractFrom(obj, lang, i + 1, ExtractField(obj, lang, i, json))
  }

  /** One iteration of the outer loop: property `i` of `obj`. */
  function ExtractField(obj: Json, lang: Language, i: nat, json: Json): (r: Json)
    requires i < |Props(obj)|
    requires json.JNull? || (json.JObj? && |json.entries| > 0)
    ensures r.JNull? || (r.JObj? && |r.entries| > 0)
    decreases Size(obj), 0, 0
  {
    var key := Props(obj)[i].0;
    var val := Props(obj)[i].1;
    if Skipped(key, val) || !IsObjectTyped(val) then json
    else
      assert Size(val) < Size(obj) by { ChildSmaller(obj, i); }
      ScanStep(json, key, val, lang)
  }

  /**
   * The subkey loop for field `key` holding `val`. Each subkey before the
   * first supported-language subkey re-runs the (pure) recursive extraction
   * of the field; the first supported-language subkey copies `val[lang]` when
   * it is a string or a non-empty array, and breaks.
   */
  function ScanStep(json: Json, key: string, val: Json, lang: Language): (r: Json)
    requires json.JNull? || (json.JObj? && |json.entries| > 0)
    ensures r.JNull? || (r.JObj? && |r.entries| > 0)
    decreases Size(val), 3
  {
    var first := FirstSupported(Keys(Props(val)));
    var scanned := if first.Some? then first.value else |Props(val)|;
    var afterScan := if scanned == 0 then json else NestedStep(json, key, Extraction(val, lang));
    if first.Some? && Qualifies(Get(val, Tag(lang))) then Attach(afterScan, key, Get(val, Tag(lang)).value)
    else afterScan
  }

  /** `if (res && Object.keys(res).length > 0) { ...; json[key] = res; }` */
  function NestedStep(json: Json, key: string, res: Json): (r: Json)
    requires json.JNull? || (json.JObj? && |json.entries| > 0)
    ensures r.JNull? || (r.JObj? && |r.entries| > 0)
  {
    if res.JObj? && |res.entries| > 0 then Attach(json, key, res) else json
  }

  lemma PutTwice(e: Entries, k: string, x: Json)
    ensures Put(Put(e, k, x), k, x) == Put(e, k, x)
  {
    var e' := Put(e, k, x);
    match Find(e, k)
    case Some(p) => FindIs(e', k, p);
    case None => FindIs(e', k, |e|);
  }

  lemma NestedStepTwice(json: Json, key: string, res: Json)
    requires json.JNull? || (json.JObj? && |json.entries| > 0)
    ensures NestedStep(NestedStep(json, key, res), key, res) == NestedStep(json, key, res)
  {
    if res.JObj? && |res.entries| > 0 {
      PutTwice(if json.JObj? then json.entries else [], key, res);
    }
  }

  /** extractValues: the outer `for (const key in obj)` loop. */
  method ExtractValues(obj: Json, lang: Language) returns (json: Json)
    ensures json == Extraction(obj, lang)
    decreases Size(obj), 1
  {
    json := JNull;
    if obj.JBuffer? {
      return;
    }
    var props := Props(obj);
    var i := 0;
    while i < |props|
      invariant 0 <= i <= |props|
      invariant json.JNull? || (json.JObj? && |json.entries| > 0)
      invariant ExtractFrom(obj, lang, i, json) == Extraction(obj, lang)
    {
      var key, val := props[i].0, props[i].1;
      if !Skipped(key, val) && IsObjectTyped(val) {
        ChildSmaller(obj, i);
        json := ScanSubkeys(json, key, val, lang);
      }
      i := i + 1;
    }
  }

  /** The inner `for (const subkey in obj[key])` loop of extractValues, for field `key` holding `val`. */
  method ScanSubkeys(json0: Json, key: string, val: Json, lang: Language) returns (json: Json)
    requires json0.JNull? || (json0.JObj? && |json0.entries| > 0)
    ensures json == ScanStep(json0, key, val, lang)
    decreases Size(val), 2
  {
    var subkeys := Keys(Props(val));
    ghost var first := FirstSupported(subkeys);
    ghost var scanned := if first.Some? then first.value else |subkeys|;
    json := json0;
    var j := 0;
    while j < |subkeys|
      invariant 0 <= j <= scanned
      invariant json == if j == 0 then json0 else NestedStep(json0, key, Extraction(val, lang))
    {
      if IsSupported(subkeys[j]) {
        var w := Get(val, Tag(lang));
        if Qualifies(w) {
          json := Attach(json, key, w.value);
        }
        break;
      } else {
        var res := ExtractValues(val, lang);
        if j > 0 {
          NestedStepTwice(json0, key, res);
        }
        json := NestedStep(json, key, res);
      }
      j := j + 1;
    }
  }

  // ---------------------------------------------------------------------
  // What extractValues keeps, key by key

  /**
   * What ends up under the key of property `i` of `obj`: nothing for a
   * Buffer, `_id`, `__v` or a non-object field; the field's `lang` value when
   * the field is a language wrapper whose `lang` value is a string or a
   * non-empty array; otherwise the non-empty projection of the field, when
   * the field has a property before its first language key.
   */
  function FieldValue(obj: Json, lang: Language, i: nat): Option<Json>
    requires i < |Props(obj)|
  {
    FieldOf(Props(obj)[i].0, Props(obj)[i].1, lang)
  }

  function FieldOf(key: string, val: Json, lang: Language): Option<Json> {
    if Skipped(key, val) || !IsObjectTyped(val) then None
    else
      var first := FirstSupported(Keys(Props(val)));
      if first.Some? && Qualifies(Get(val, Tag(lang))) then Get(val, Tag(lang))
      else if (first.None? && |Props(val)| > 0) || (first.Some? && first.value > 0) then
        var res := Extraction(val, lang);
        if res.JObj? then Some(res) else None
      else None
  }

  lemma GetAttach(json: Json, key: string, v: Json, k: string)
    requires json.JNull? || json.JObj?
    ensures Get(Attach(json, key, v), k) == if k == key then Some(v) else Get(json, k)
  {
    LookupPut(if json.JObj? then json.entries else [], key, v, k);
  }

  /** One outer iteration changes only the current key, and sets it to FieldValue when that is defined. */
  lemma ExtractFieldGet(obj: Json, lang: Language, i: nat, json: Json, k: string)
    requires i < |Props(obj)|
    requires json.JNull? || (json.JObj? && |json.entries| > 0)
    ensures Get(ExtractField(obj, lang, i, json), k) ==
      if k == Props(obj)[i].0 && FieldValue(obj, lang, i).Some? then FieldValue(obj, lang, i) else Get(json, k)
  {
    var key := Props(obj)[i].0;
    var val := Props(obj)[i].1;
    if !Skipped(key, val) && IsObjectTyped(val) {
      ScanStepGet(json, key, val, lang, k);
    }
  }

  lemma ScanStepGet(json: Json, key: string, val: Json, lang: Language, k: string)
    requires json.JNull? || (json.JObj? && |json.entries| > 0)
    requires !Skipped(key, val) && IsObjectTyped(val)
    ensures Get(ScanStep(json, key, val, lang), k) ==
      if k == key && FieldOf(key, val, lang).Some? then FieldOf(key, val, lang) else Get(json, k)
  {
    var first := FirstSupported(Keys(Props(val)));
    var scanned := if first.Some? then first.value else |Props(val)|;
    var res := Extraction(val, lang);
    var afterScan := if scanned == 0 then json else NestedStep(json, key, res);
    if scanned != 0 && res.JObj? {
      GetAttach(json, key, res, k);
    }
    if first.Some? && Qualifies(Get(val, Tag(lang))) {
      GetAttach(afterScan, key, Get(val, Tag(lang)).value, k);
    }
  }

  lemma {:induction false} ExtractFromOthers(obj: Json, lang: Language, j: nat, json: Json, k: string)
    requires j <= |Props(obj)|
    requires json.JNull? || (json.JObj? && |json.entries| > 0)
    requires forall i :: j <= i < |Props(obj)| ==> Props(obj)[i].0 != k
    ensures Get(ExtractFrom(obj, lang, j, json), k) == Get(json, k)
    decreases |Props(obj)| - j
  {
    if j < |Props(obj)| {
      ExtractFieldGet(obj, lang, j, json, k);
      ExtractFromOthers(obj, lang, j + 1, ExtractField(obj, lang, j, json), k);
    }
  }

  lemma {:induction false} ExtractFromKey(obj: Json, lang: Language, j: nat, json: Json, i: nat)
    requires j <= i < |Props(obj)| && DistinctKeys(Props(obj))
    requires json.JNull? || (json.JObj? && |json.entries| > 0)
    ensures Get(ExtractFrom(obj, lang, j, json), Props(obj)[i].0) ==
      if FieldValue(obj, lang, i).Some? then FieldValue(obj, lang, i) else Get(json, Props(obj)[i].0)
    decreases i - j
  {
    var k := Props(obj)[i].0;
    ExtractFieldGet(obj, lang, j, json, k);
    assert ExtractFrom(obj, lang, j, json) == ExtractFrom(obj, lang, j + 1, ExtractField(obj, lang, j, json));
    if j == i {
      ExtractFromOthers(obj, lang, j + 1, ExtractField(obj, lang, j, json), k);
    } else {
      ExtractFromKey(obj, lang, j + 1, ExtractField(obj, lang, j, json), i);
    }
  }

  /** For a well-formed document, the projection holds exactly FieldValue under each field's key. */
  lemma ExtractionField(obj: Json, lang: Language, i: nat)
    requires WellFormed(obj) && i < |Props(obj)|
    ensures Get(Extraction(obj, lang), Props(obj)[i].0) == FieldValue(obj, lang, i)
  {
    PropsWellFormed(obj);
    if !obj.JBuffer? {
      ExtractFromKey(obj, lang, 0, JNull, i);
    }
  }

  /** The projection has no key the document does not have. */
  lemma ExtractionOutsideProps(obj: Json, lang: Language, k: string)
    requires forall i :: 0 <= i < |Props(obj)| ==> Props(obj)[i].0 != k
    ensures Get(Extraction(obj, lang), k) == None
  {
    if !obj.JBuffer? {
      ExtractFromOthers(obj, lang, 0, JNull, k);
    }
  }

  /** Storage keys, Buffers and scalar fields never reach the projection. */
  lemma ExtractionSkips(obj: Json, lang: Language, i: nat)
    requires WellFormed(obj) && i < |Props(obj)|
    requires Skipped(Props(obj)[i].0, Props(obj)[i].1) || !IsObjectTyped(Props(obj)[i].1)
    ensures Get(Extraction(obj, lang), Props(obj)[i].0) == None
  {
    ExtractionField(obj, lang, i);
  }

  /** A `{nl, en, sv}` wrapper field contributes its `lang` value when that is a string or a non-empty array. */
  lemma ExtractionOfWrapper(obj: Json, lang: Language, i: nat)
    requires WellFormed(obj) && i < |Props(obj)|
    requires !Skipped(Props(obj)[i].0, Props(obj)[i].1) && Props(obj)[i].1.JObj?
    requires var ks := Keys(Props(Props(obj)[i].1)); |ks| > 0 && IsSupported(ks[0])
    ensures var w := Get(Props(obj)[i].1, Tag(lang));
      Get(Extraction(obj, lang), Props(obj)[i].0) == if Qualifies(w) then w else None
  {
    ExtractionField(obj, lang, i);
  }

  /** The projection of a well-formed document is well-formed. */
  lemma {:induction false} ExtractionWellFormed(obj: Json, lang: Language)
    requires WellFormed(obj)
    ensures WellFormed(Extraction(obj, lang))
    decreases Size(obj), 2
  {
    if !obj.JBuffer? {
      PropsWellFormed(obj);
      ExtractFromWellFormed(obj, lang, 0, JNull);
    }
  }

  lemma {:induction false} ExtractFromWellFormed(obj: Json, lang: Language, j: nat, json: Json)
    requires WellFormed(obj) && j <= |Props(obj)|
    requires json.JNull? || (json.JObj? && |json.entries| > 0)
    requires WellFormed(json)
    ensures WellFormed(ExtractFrom(obj, lang, j, json))
    decreases Size(obj), 0, |Props(obj)| - j
  {
    if j < |Props(obj)| {
      ExtractFieldWellFormed(obj, lang, j, json);
      ExtractFromWellFormed(obj, lang, j + 1, ExtractField(obj, lang, j, json));
    }
  }

  lemma {:induction false} ExtractFieldWellFormed(obj: Json, lang: Language, j: nat, json: Json)
    requires WellFormed(obj) && j < |Props(obj)|
    requires json.JNull? || (json.JObj? && |json.entries| > 0)
    requires WellFormed(json)
    ensures WellFormed(ExtractField(obj, lang, j, json))
    decreases Size(obj), 0, 0
  {
    var key := Props(obj)[j].0;
    var val := Props(obj)[j].1;
    if !Skipped(key, val) && IsObjectTyped(val) {
      PropsWellFormed(obj);
      ChildSmaller(obj, j);
      ScanStepWellFormed(json, key, val, lang);
    }
  }

  lemma {:induction false} ScanStepWellFormed(json: Json, key: string, val: Json, lang: Language)
    requires json.JNull? || (json.JObj? && |json.entries| > 0)
    requires WellFormed(json) && WellFormed(val)
    ensures WellFormed(ScanStep(json, key, val, lang))
    decreases Size(val), 3
  {
    var res := Extraction(val, lang);
    ExtractionWellFormed(val, lang);
    AttachWellFormed(json, key, res);
    var first := FirstSupported(Keys(Props(val)));
    var scanned := if first.Some? then first.value else |Props(val)|;
    var afterScan := if scanned == 0 then json else NestedStep(json, key, res);
    var w := Get(val, Tag(lang));
    if first.Some? && Qualifies(w) {
      GetWellFormed(val, Tag(lang));
      AttachWellFormed(afterScan, key, w.value);
    }
  }

  lemma AttachWellFormed(json: Json, key: string, v: Json)
    requires json.JNull? || json.JObj?
    requires WellFormed(json) && WellFormed(v)
    ensures WellFormed(Attach(json, key, v))
  {
    var e := if json.JObj? then json.entries else [];
    PutDistinct(e, key, v);
    PutAll(e, key, v, (kv: (string, Json)) => WellFormed(kv.1));
  }

  // =====================================================================
  // assignTranslatedValues

  /** What assignTranslatedValues returns: always a plain object. */
  function Assignment(obj: Json, lang: Language): (r: Json)
    ensures r.JObj?
    decreases Size(obj), 1, 0
  {
    JObj(AssignFrom(obj, lang, 0, []))
  }

  /** The `for (const key in obj)` loop of assignTranslatedValues, from property `i` on. */
  function AssignFrom(obj: Json, lang: Language, i: nat, json: Entries): Entries
    requires i <= |Props(obj)|
    decreases Size(obj), 0, |Props(obj)| - i
  {
    if i == |Props(obj)| then json
    else
      var val := Props(obj)[i].1;
      assert IsObjectTyped(val) ==> Size(val) < Size(obj) by { ChildSmaller(obj, i); }
      var nested := if IsPlainObject(val) then Assignment(val, lang) else JObj([]);
      AssignFrom(obj, lang, i + 1, AssignStep(obj, lang, i, json, nested))
  }

  /**
   * One iteration for property `i`: an array is wrapped as `{lang: array}`,
   * another object is replaced by its own (non-empty) re-wrapping `nested`,
   * and a primitive or null is stored under `lang` in the key's wrapper.
   */
  function AssignStep(obj: Json, lang: Language, i: nat, json: Entries, nested: Json): Entries
    requires i < |Props(obj)| && nested.JObj?
  {
    var key := Props(obj)[i].0;
    var val := Props(obj)[i].1;
    if IsObjectTyped(val) && !val.JNull? then
      if val.JArr? then Put(json, key, JObj([(Tag(lang), val)]))
      else if |nested.entries| > 0 then Put(json, key, nested)
      else json
    else Put(json, key, Wrap(Lookup(json, key), lang, val))
  }

  /**
   * `json[key] = json[key] || {}; json[key][lang] = v`. Every value the
   * accumulator holds is an object, so the `||` keeps an existing entry.
   */
  function Wrap(existing: Option<Json>, lang: Language, v: Json): (r: Json)
    ensures r.JObj? && Lookup(r.entries, Tag(lang)) == Some(v)
  {
    var base := if TruthyOpt(existing) && existing.value.JObj? then existing.value.entries else [];
    LookupPut(base, Tag(lang), v, Tag(lang));
    JObj(Put(base, Tag(lang), v))
  }

  lemma AssignFromUnfold(obj: Json, lang: Language, i: nat, json: Entries)
    requires i < |Props(obj)|
    ensures IsObjectTyped(Props(obj)[i].1) ==> Size(Props(obj)[i].1) < Size(obj)
    ensures var val := Props(obj)[i].1;
      var nested := if IsPlainObject(val) then Assignment(val, lang) else JObj([]);
      AssignFrom(obj, lang, i, json) == AssignFrom(obj, lang, i + 1, AssignStep(obj, lang, i, json, nested))
  {
    ChildSmaller(obj, i);
  }

  /** assignTranslatedValues: the `for (const key in obj)` loop. */
  method AssignTranslatedValues(obj: Json, lang: Language) returns (json: Json)
    ensures json == Assignment(obj, lang)
    decreases Size(obj), 1
  {
    var props := Props(obj);
    var acc: Entries := [];
    var i := 0;
    while i < |props|
      invariant 0 <= i <= |props|
      invariant AssignFrom(obj, lang, i, acc) == Assignment(obj, lang).entries
    {
      acc := AssignProperty(obj, lang, i, acc);
      i := i + 1;
    }
    json := JObj(acc);
  }

  /** The body of the loop of assignTranslatedValues, for property `i`. */
  method AssignProperty(obj: Json, lang: Language, i: nat, json0: Entries) returns (json: Entries)
    requires i < |Props(obj)|
    ensures AssignFrom(obj, lang, i + 1, json) == AssignFrom(obj, lang, i, json0)
    decreases Size(obj), 0
  {
    AssignFromUnfold(obj, lang, i, json0);
    var key, val := Props(obj)[i].0, Props(obj)[i].1;
    ChildSmaller(obj, i);
    json := json0;
    if IsObjectTyped(val) && !val.JNull? {
      if val.JArr? {
        json := Put(json, key, JObj([(Tag(lang), val)]));
      } else {
        var res := AssignTranslatedValues(val, lang);
        if |res.entries| > 0 {
          json := Put(json, key, res);
        }
      }
    } else {
      json := Put(json, key, Wrap(Lookup(json, key), lang, val));
    }
  }

  // ---------------------------------------------------------------------
  // What assignTranslatedValues builds, key by key

  /**
   * What ends up under the key of property `i` of `obj`: `{lang: value}` for
   * an array or a primitive (null included), and the non-empty re-wrapping of
   * any other object.
   */
  function AssignedValue(obj: Json, lang: Language, i: nat): Option<Json>
    requires i < |Props(obj)|
  {
    Rewrapped(Props(obj)[i].1, lang)
  }

  function Rewrapped(val: Json, lang: Language): Option<Json> {
    if IsPlainObject(val) then
      var res := Assignment(val, lang);
      if |res.entries| > 0 then Some(res) else None
    else Some(JObj([(Tag(lang), val)]))
  }

  lemma AssignStepGet(obj: Json, lang: Language, i: nat, json: Entries, k: string)
    requires i < |Props(obj)|
    requires k == Props(obj)[i].0 ==> Lookup(json, k) == None
    ensures IsObjectTyped(Props(obj)[i].1) ==> Size(Props(obj)[i].1) < Size(obj)
    ensures var val := Props(obj)[i].1;
      var nested := if IsPlainObject(val) then Assignment(val, lang) else JObj([]);
      Lookup(AssignStep(obj, lang, i, json, nested), k) ==
        if k == Props(obj)[i].0 then AssignedValue(obj, lang, i) else Lookup(json, k)
  {
    ChildSmaller(obj, i);
    var key := Props(obj)[i].0;
    var val := Props(obj)[i].1;
    var nested := if IsPlainObject(val) then Assignment(val, lang) else JObj([]);
    if IsObjectTyped(val) && !val.JNull? {
      if val.JArr? {
        LookupPut(json, key, JObj([(Tag(lang), val)]), k);
      } else if |nested.entries| > 0 {
        LookupPut(json, key, nested, k);
      }
    } else {
      var w := Wrap(Lookup(json, key), lang, val);
      LookupPut(json, key, w, k);
      if k == key {
        assert w == JObj([(Tag(lang), val)]);
      }
    }
  }

  lemma {:induction false} AssignFromOthers(obj: Json, lang: Language, j: nat, json: Entries, k: string)
    requires j <= |Props(obj)|
    requires forall i :: j <= i < |Props(obj)| ==> Props(obj)[i].0 != k
    ensures Lookup(AssignFrom(obj, lang, j, json), k) == Lookup(json, k)
    decreases |Props(obj)| - j
  {
    if j < |Props(obj)| {
      var val := Props(obj)[j].1;
      var nested := if IsPlainObject(val) then Assignment(val, lang) else JObj([]);
      var json' := AssignStep(obj, lang, j, json, nested);
      AssignFromUnfold(obj, lang, j, json);
      AssignStepGet(obj, lang, j, json, k);
      assert Lookup(json', k) == Lookup(json, k);
      AssignFromOthers(obj, lang, j + 1, json', k);
    }
  }

  lemma {:induction false} AssignFromKey(obj: Json, lang: Language, j: nat, json: Entries, i: nat)
    requires j <= i < |Props(obj)| && DistinctKeys(Props(obj))
    requires Lookup(json, Props(obj)[i].0) == None
    ensures Lookup(AssignFrom(obj, lang, j, json), Props(obj)[i].0) == AssignedValue(obj, lang, i)
    decreases i - j
  {
    var k := Props(obj)[i].0;
    var val := Props(obj)[j].1;
    var nested := if IsPlainObject(val) then Assignment(val, lang) else JObj([]);
    var json' := AssignStep(obj, lang, j, json, nested);
    AssignFromUnfold(obj, lang, j, json);
    AssignStepGet(obj, lang, j, json, k);
    if j == i {
      assert Lookup(json', k) == AssignedValue(obj, lang, i);
      LaterPropsDiffer(obj, i);
      AssignFromOthers(obj, lang, j + 1, json', k);
    } else {
      assert Props(obj)[j].0 != k;
      assert Lookup(json', k) == None;
      AssignFromKey(obj, lang, j + 1, json', i);
    }
  }

  lemma LaterPropsDiffer(obj: Json, i: nat)
    requires i < |Props(obj)| && DistinctKeys(Props(obj))
    ensures forall j :: i < j < |Props(obj)| ==> Props(obj)[j].0 != Props(obj)[i].0
  {
  }

  /** For a well-formed input, the re-wrapping holds exactly AssignedValue under each key. */
  lemma AssignmentField(obj: Json, lang: Language, i: nat)
    requires WellFormed(obj) && i < |Props(obj)|
    ensures Get(Assignment(obj, lang), Props(obj)[i].0) == AssignedValue(obj, lang, i)
  {
    PropsWellFormed(obj);
    AssignFromKey(obj, lang, 0, [], i);
  }

  /** The re-wrapping has no key its input does not have. */
  lemma AssignmentOutsideProps(obj: Json, lang: Language, k: string)
    requires forall i :: 0 <= i < |Props(obj)| ==> Props(obj)[i].0 != k
    ensures Get(Assignment(obj, lang), k) == None
  {
    AssignFromOthers(obj, lang, 0, [], k);
  }

  // ---------------------------------------------------------------------
  // The shape of a re-wrapping, and what a merge of that shape preserves

  /**
   * An object whose every value is either a nested object of the same shape
   * or a non-Buffer value stored under the tag of `lang`.
   */
  predicate LangLeaves(m: Json, lang: Language) {
    match m
    case JObj(e) =>
      forall i :: 0 <= i < |e| ==>
        if e[i].1.JObj? then LangLeaves(e[i].1, lang) else !e[i].1.JBuffer? && e[i].0 == Tag(lang)
    case _ => false
  }

  predicate AllWrapped(json: Entries, lang: Language) {
    forall i :: 0 <= i < |json| ==> json[i].1.JObj? && LangLeaves(json[i].1, lang)
  }

  lemma {:induction false} AssignFromLeaves(obj: Json, lang: Language, j: nat, json: Entries)
    requires j <= |Props(obj)| && AllWrapped(json, lang)
    ensures AllWrapped(AssignFrom(obj, lang, j, json), lang)
    decreases Size(obj), 0, |Props(obj)| - j
  {
    if j < |Props(obj)| {
      ChildSmaller(obj, j);
      var val := Props(obj)[j].1;
      var nested := if IsPlainObject(val) then Assignment(val, lang) else JObj([]);
      if IsPlainObject(val) {
        AssignmentLangLeaves(val, lang);
      }
      AssignStepLeaves(obj, lang, j, json, nested);
      AssignFromLeaves(obj, lang, j + 1, AssignStep(obj, lang, j, json, nested));
    }
  }

  lemma AssignStepLeaves(obj: Json, lang: Language, j: nat, json: Entries, nested: Json)
    requires j < |Props(obj)| && AllWrapped(json, lang)
    requires nested.JObj? && (|nested.entries| > 0 ==> LangLeaves(nested, lang))
    ensures AllWrapped(AssignStep(obj, lang, j, json, nested), lang)
  {
    var key := Props(obj)[j].0;
    var val := Props(obj)[j].1;
    var wrapped := (kv: (string, Json)) => kv.1.JObj? && LangLeaves(kv.1, lang);
    if IsObjectTyped(val) && !val.JNull? {
      if val.JArr? {
        PutAll(json, key, JObj([(Tag(lang), val)]), wrapped);
      } else if |nested.entries| > 0 {
        PutAll(json, key, nested, wrapped);
      }
    } else {
      WrapLeaves(json, key, lang, val);
      PutAll(json, key, Wrap(Lookup(json, key), lang, val), wrapped);
    }
  }

  lemma WrapLeaves(json: Entries, key: string, lang: Language, val: Json)
    requires AllWrapped(json, lang) && !val.JObj? && !val.JBuffer?
    ensures LangLeaves(Wrap(Lookup(json, key), lang, val), lang)
  {
    var existing := Lookup(json, key);
    var base := if TruthyOpt(existing) && existing.value.JObj? then existing.value.entries else [];
    if existing.Some? {
      assert existing.value == json[Find(json, key).value].1;
    }
    assert LangLeaves(JObj(base), lang);
    var leaf := (kv: (string, Json)) => if kv.1.JObj? then LangLeaves(kv.1, lang) else !kv.1.JBuffer? && kv.0 == Tag(lang);
    PutAll(base, Tag(lang), val, leaf);
  }

  /** A re-wrapping has the shape LangLeaves describes, whatever its input. */
  lemma {:induction false} AssignmentLangLeaves(obj: Json, lang: Language)
    ensures LangLeaves(Assignment(obj, lang), lang)
    decreases Size(obj), 1, 0
  {
    AssignFromLeaves(obj, lang, 0, []);
  }

  // =====================================================================
  // mergeObject

  /**
   * The outcome of `mergeObject(obj, mergeObj)`: the destination after the
   * writes that happened (also when an exception cut the merge short), and
   * whether the merge ran to completion.
   */
  datatype Merged = Merged(obj: Option<Json>, ok: bool)

  /** `v[k] = x` where it is expressible, otherwise `v` unchanged. */
  function SetOr(v: Json, k: string, x: Json): Json {
    match Set(v, k, x)
    case Some(w) => w
    case None => v
  }

  /**
   * The `for (const key in mergeObj)` loop of mergeObject from property `i`
   * on, writing into `obj` (None is `undefined`); the first iteration that
   * throws ends it.
   */
  function MergeFrom(obj: Option<Json>, m: Json, i: nat): Merged
    requires i <= |Props(m)|
    decreases Size(m), |Props(m)| - i, 1
  {
    if i == |Props(m)| then Merged(obj, true)
    else
      var step := MergeStep(obj, m, i);
      if step.ok then MergeFrom(step.obj, m, i + 1) else step
  }

  /**
   * One iteration, for property `i` of `m`. A plain-object value is merged
   * into `obj[key]`, which the source mutates in place and the model writes
   * back; any other value (an array, a primitive, null) overwrites
   * `obj[key]`. Reading or writing a property of undefined or null throws.
   */
  function MergeStep(obj: Option<Json>, m: Json, i: nat): Merged
    requires i < |Props(m)|
    decreases Size(m), |Props(m)| - i, 0
  {
    if obj.None? || obj.value.JNull? then Merged(obj, false)
    else
      var key := Props(m)[i].0;
      var val := Props(m)[i].1;
      var dst := obj.value;
      if IsPlainObject(val) then
        assert Size(val) < Size(m) by { ChildSmaller(m, i); }
        var sub := MergeFrom(Get(dst, key), val, 0);
        Merged(Some(if sub.obj.Some? then SetOr(dst, key, sub.obj.value) else dst), sub.ok)
      else
        match Set(dst, key, val)
        case Some(dst') => Merged(Some(dst'), true)
        case None => Merged(obj, false)
  }

  /** mergeObject(obj, m): nothing to merge always succeeds; anything to merge into undefined or null throws. */
  function Merge(obj: Option<Json>, m: Json): (r: Merged)
    ensures |Props(m)| == 0 ==> r == Merged(obj, true)
    ensures |Props(m)| > 0 && (obj.None? || obj.value.JNull?) ==> r == Merged(obj, false)
  {
    assert |Props(m)| > 0 && (obj.None? || obj.value.JNull?) ==> MergeStep(obj, m, 0) == Merged(obj, false);
    MergeFrom(obj, m, 0)
  }

  /** mergeObject, with its `for...in` loop; the merged destination is returned rather than mutated. */
  method MergeObject(obj: Option<Json>, mergeObj: Json) returns (result: Merged)
    ensures result == Merge(obj, mergeObj)
    decreases Size(mergeObj)
  {
    var props := Props(mergeObj);
    var cur := obj;
    var i := 0;
    while i < |props|
      invariant 0 <= i <= |props|
      invariant MergeFrom(cur, mergeObj, i) == Merge(obj, mergeObj)
    {
      if cur.None? || cur.value.JNull? {
        return Merged(cur, false);
      }
      var key, val := props[i].0, props[i].1;
      if IsPlainObject(val) {
        ChildSmaller(mergeObj, i);
        var sub := MergeObject(Get(cur.value, key), val);
        if sub.obj.Some? {
          cur := Some(SetOr(cur.value, key, sub.obj.value));
        }
        if !sub.ok {
          return Merged(cur, false);
        }
      } else {
        var next := Set(cur.value, key, val);
        if next.None? {
          return Merged(cur, false);
        }
        cur := next;
      }
      i := i + 1;
    }
    return Merged(cur, true);
  }

  // ---------------------------------------------------------------------
  // What a merge leaves alone

  /** `e` without its entries named `k`. */
  function DropKey(e: Entries, k: string): (r: Entries)
    ensures forall i :: 0 <= i < |r| ==> r[i].0 != k
  {
    if e == [] then [] else (if e[0].0 == k then [] else [e[0]]) + DropKey(e[1..], k)
  }

  lemma {:induction false} DropKeyUpdate(e: Entries, p: nat, k: string, x: Json)
    requires p < |e| && e[p].0 == k
    ensures DropKey(e[p := (k, x)], k) == DropKey(e, k)
  {
    if p > 0 {
      DropKeyUpdate(e[1..], p - 1, k, x);
      assert e[p := (k, x)][1..] == e[1..][p - 1 := (k, x)];
    }
  }

  lemma {:induction false} DropKeyAppend(e: Entries, k: string, x: Json)
    ensures DropKey(e + [(k, x)], k) == DropKey(e, k)
  {
    if e != [] {
      DropKeyAppend(e[1..], k, x);
      assert (e + [(k, x)])[1..] == e[1..] + [(k, x)];
    }
  }

  /** `v` with every property named by the tag of `lang` removed, at every depth. */
  function Erase(v: Json, lang: Language): Json {
    match v
    case JObj(e) => JObj(DropKey(seq(|e|, i requires 0 <= i < |e| => (e[i].0, Erase(e[i].1, lang))), Tag(lang)))
    case JArr(a) => JArr(seq(|a|, i requires 0 <= i < |a| => Erase(a[i], lang)))
    case _ => v
  }

  function EraseOpt(o: Option<Json>, lang: Language): Option<Json> {
    match o
    case Some(v) => Some(Erase(v, lang))
    case None => None
  }

  /** Writing a property named by the tag of `lang` is invisible once that tag is erased. */
  lemma EraseSetLang(v: Json, lang: Language, x: Json)
    requires Set(v, Tag(lang), x).Some?
    ensures Erase(Set(v, Tag(lang), x).value, lang) == Erase(v, lang)
  {
    var t := Tag(lang);
    match v
    case JObj(e) =>
      var m := seq(|e|, i requires 0 <= i < |e| => (e[i].0, Erase(e[i].1, lang)));
      var e' := Put(e, t, x);
      var m' := seq(|e'|, i requires 0 <= i < |e'| => (e'[i].0, Erase(e'[i].1, lang)));
      if Find(e, t).Some? {
        var p := Find(e, t).value;
        assert m' == m[p := (t, Erase(x, lang))];
        DropKeyUpdate(m, p, t, Erase(x, lang));
      } else {
        assert m' == m + [(t, Erase(x, lang))];
        DropKeyAppend(m, t, Erase(x, lang));
      }
    case JArr(a) =>
      var p := Find(Props(v), t).value;
      IndexKeyIsNotWord(p, t);
      assert false;
  }

  /** Replacing a property by a value that erases alike is invisible once the tag is erased. */
  lemma EraseSetChild(v: Json, k: string, c: Json, lang: Language)
    requires Get(v, k).Some? && Erase(c, lang) == Erase(Get(v, k).value, lang)
    ensures Erase(SetOr(v, k, c), lang) == Erase(v, lang)
  {
    match v
    case JObj(e) => EraseEntryUpdate(e, Find(e, k).value, c, lang);
    case JArr(a) => EraseItemUpdate(a, Find(Props(v), k).value, c, lang);
    case _ =>
  }

  lemma EraseEntryUpdate(e: Entries, p: nat, c: Json, lang: Language)
    requires p < |e| && Erase(c, lang) == Erase(e[p].1, lang)
    ensures Erase(JObj(e[p := (e[p].0, c)]), lang) == Erase(JObj(e), lang)
  {
    var e' := e[p := (e[p].0, c)];
    var m := seq(|e|, i requires 0 <= i < |e| => (e[i].0, Erase(e[i].1, lang)));
    var m' := seq(|e'|, i requires 0 <= i < |e'| => (e'[i].0, Erase(e'[i].1, lang)));
    forall i | 0 <= i < |e|
      ensures m'[i] == m[i]
    {
    }
    assert m' == m;
  }

  lemma EraseItemUpdate(a: seq<Json>, p: nat, c: Json, lang: Language)
    requires p < |a| && Erase(c, lang) == Erase(a[p], lang)
    ensures Erase(JArr(a[p := c]), lang) == Erase(JArr(a), lang)
  {
    var a' := a[p := c];
    var m := seq(|a|, i requires 0 <= i < |a| => Erase(a[i], lang));
    var m' := seq(|a'|, i requires 0 <= i < |a'| => Erase(a'[i], lang));
    forall i | 0 <= i < |a|
      ensures m'[i] == m[i]
    {
    }
    assert m' == m;
  }

  /**
   * Merging a value of LangLeaves shape changes nothing but properties named
   * by the tag of `lang`, also when the merge throws part-way.
   */
  lemma {:induction false} MergeKeepsOtherLanguages(obj: Option<Json>, m: Json, i: nat, lang: Language)
    requires LangLeaves(m, lang) && i <= |Props(m)|
    ensures EraseOpt(MergeFrom(obj, m, i).obj, lang) == EraseOpt(obj, lang)
    decreases Size(m), |Props(m)| - i, 1
  {
    if i < |Props(m)| {
      StepKeepsOtherLanguages(obj, m, i, lang);
      var step := MergeStep(obj, m, i);
      if step.ok {
        MergeKeepsOtherLanguages(step.obj, m, i + 1, lang);
      }
    }
  }

  lemma {:induction false} StepKeepsOtherLanguages(obj: Option<Json>, m: Json, i: nat, lang: Language)
    requires LangLeaves(m, lang) && i < |Props(m)|
    ensures EraseOpt(MergeStep(obj, m, i).obj, lang) == EraseOpt(obj, lang)
    decreases Size(m), |Props(m)| - i, 0
  {
    if obj.Some? && !obj.value.JNull? {
      var key := Props(m)[i].0;
      var val := Props(m)[i].1;
      var dst := obj.value;
      assert Props(m) == m.entries;
      if IsPlainObject(val) {
        ChildSmaller(m, i);
        var child := Get(dst, key);
        MergeKeepsOtherLanguages(child, val, 0, lang);
        var sub := MergeFrom(child, val, 0);
        if sub.obj.Some? {
          EraseSetChild(dst, key, sub.obj.value, lang);
        }
      } else if Set(dst, key, val).Some? {
        EraseSetLang(dst, lang, val);
      }
    }
  }

  /**
   * Writing back any re-wrapping under `lang` leaves every other language
   * (and every field that is not a language value) of the document as it was.
   */
  lemma WriteBackKeepsOtherLanguages(doc: Json, t: Json, lang: Language)
    ensures EraseOpt(Merge(Some(doc), Assignment(t, lang)).obj, lang) == Some(Erase(doc, lang))
  {
    AssignmentLangLeaves(t, lang);
    MergeKeepsOtherLanguages(Some(doc), Assignment(t, lang), 0, lang);
  }

  // ---------------------------------------------------------------------
  // Merging what is already there

  predicate IsContainer(v: Json) {
    v.JObj? || v.JArr?
  }

  /** `r` is `o` after writes: objects stay objects, arrays stay arrays, nothing else changes. */
  predicate SameShape(o: Option<Json>, r: Option<Json>) {
    (o.None? <==> r.None?) &&
    (o.Some? && o.value.JObj? ==> r.value.JObj?) &&
    (o.Some? && o.value.JArr? ==> r.value.JArr?) &&
    (o.Some? && !IsContainer(o.value) ==> r == o)
  }

  lemma StepShape(obj: Option<Json>, m: Json, i: nat)
    requires i < |Props(m)|
    ensures SameShape(obj, MergeStep(obj, m, i).obj)
  {
  }

  lemma {:induction false} MergeShape(obj: Option<Json>, m: Json, i: nat)
    requires i <= |Props(m)|
    ensures SameShape(obj, MergeFrom(obj, m, i).obj)
    decreases |Props(m)| - i
  {
    if i < |Props(m)| {
      StepShape(obj, m, i);
      if MergeStep(obj, m, i).ok {
        MergeShape(MergeStep(obj, m, i).obj, m, i + 1);
      }
    }
  }

  lemma StepOtherKeys(obj: Option<Json>, m: Json, i: nat, k: string)
    requires i < |Props(m)| && obj.Some? && Props(m)[i].0 != k
    ensures MergeStep(obj, m, i).obj.Some?
    ensures Get(MergeStep(obj, m, i).obj.value, k) == Get(obj.value, k)
  {
    if !obj.value.JNull? {
      var key := Props(m)[i].0;
      var val := Props(m)[i].1;
      var dst := obj.value;
      if IsPlainObject(val) {
        var sub := MergeFrom(Get(dst, key), val, 0);
        if sub.obj.Some? && Set(dst, key, sub.obj.value).Some? {
          GetSet(dst, key, sub.obj.value, k);
        }
      } else if Set(dst, key, val).Some? {
        GetSet(dst, key, val, k);
      }
    }
  }

  /** A merge leaves every property it does not visit as it was. */
  lemma {:induction false} MergeOtherKeys(obj: Option<Json>, m: Json, i: nat, k: string)
    requires i <= |Props(m)| && obj.Some?
    requires forall j :: i <= j < |Props(m)| ==> Props(m)[j].0 != k
    ensures MergeFrom(obj, m, i).obj.Some?
    ensures Get(MergeFrom(obj, m, i).obj.value, k) == Get(obj.value, k)
    decreases |Props(m)| - i
  {
    if i < |Props(m)| {
      var step := MergeStep(obj, m, i);
      StepOtherKeys(obj, m, i, k);
      if step.ok {
        MergeOtherKeys(step.obj, m, i + 1, k);
        assert MergeFrom(obj, m, i) == MergeFrom(step.obj, m, i + 1);
      } else {
        assert MergeFrom(obj, m, i) == step;
      }
    }
  }

  /**
   * Every write `mergeObject(d, m)` would make for property `i` is already in
   * `d`: the property is an empty object, a non-empty object that agrees with
   * the corresponding property of `d`, or a value `d` (an object or an array)
   * already holds under that key.
   */
  predicate EntryAgrees(d: Json, m: Json, i: nat)
    requires i < |Props(m)|
    decreases Size(m), 0
  {
    var key := Props(m)[i].0;
    var val := Props(m)[i].1;
    if IsPlainObject(val) then
      assert Size(val) < Size(m) by { ChildSmaller(m, i); }
      |Props(val)| == 0 || (Get(d, key).Some? && Agrees(Get(d, key).value, val))
    else IsContainer(d) && Get(d, key) == Some(val)
  }

  /** Every write `mergeObject(d, m)` would make is already in `d`. */
  predicate Agrees(d: Json, m: Json)
    decreases Size(m), 1
  {
    (|Props(m)| == 0 || !d.JNull?) && forall i :: 0 <= i < |Props(m)| ==> EntryAgrees(d, m, i)
  }

  lemma {:induction false} StepAgreeing(d: Json, m: Json, i: nat)
    requires i < |Props(m)| && !d.JNull? && EntryAgrees(d, m, i)
    ensures MergeStep(Some(d), m, i) == Merged(Some(d), true)
    decreases Size(m), 0
  {
    var key := Props(m)[i].0;
    var val := Props(m)[i].1;
    if IsPlainObject(val) {
      ChildSmaller(m, i);
      var child := Get(d, key);
      if |Props(val)| > 0 {
        MergeAgreesFrom(child.value, val, 0);
      }
      assert MergeFrom(child, val, 0) == Merged(child, true);
      if child.Some? && IsContainer(d) {
        SetSame(d, key);
      }
    } else {
      SetSame(d, key);
    }
  }

  lemma {:induction false} MergeAgreesFrom(d: Json, m: Json, i: nat)
    requires i <= |Props(m)| && Agrees(d, m)
    ensures MergeFrom(Some(d), m, i) == Merged(Some(d), true)
    decreases Size(m), 1 + |Props(m)| - i
  {
    if i < |Props(m)| {
      StepAgreeing(d, m, i);
      MergeAgreesFrom(d, m, i + 1);
    }
  }

  /** Merging what the destination already holds changes nothing and succeeds. */
  lemma MergeAgreeing(d: Json, m: Json)
    requires Agrees(d, m)
    ensures Merge(Some(d), m) == Merged(Some(d), true)
  {
    MergeAgreesFrom(d, m, 0);
  }

  /** A successful iteration leaves the destination agreeing on the property it merged. */
  lemma StepAgrees(obj: Option<Json>, m: Json, i: nat)
    requires WellFormed(m) && i < |Props(m)| && MergeStep(obj, m, i).ok
    ensures obj.Some? && !obj.value.JNull?
    ensures MergeStep(obj, m, i).obj.Some? && !MergeStep(obj, m, i).obj.value.JNull?
    ensures EntryAgrees(MergeStep(obj, m, i).obj.value, m, i)
    decreases Size(m), 1
  {
    if IsPlainObject(Props(m)[i].1) {
      StepAgreesNested(obj, m, i);
    } else {
      GetSet(obj.value, Props(m)[i].0, Props(m)[i].1, Props(m)[i].0);
    }
  }

  lemma {:induction false} StepAgreesNested(obj: Option<Json>, m: Json, i: nat)
    requires WellFormed(m) && i < |Props(m)| && MergeStep(obj, m, i).ok
    requires IsPlainObject(Props(m)[i].1)
    ensures obj.Some? && !obj.value.JNull?
    ensures MergeStep(obj, m, i).obj.Some? && !MergeStep(obj, m, i).obj.value.JNull?
    ensures EntryAgrees(MergeStep(obj, m, i).obj.value, m, i)
    decreases Size(m), 0
  {
    var key := Props(m)[i].0;
    var val := Props(m)[i].1;
    var d := obj.value;
    var d' := MergeStep(obj, m, i).obj.value;
    PropsWellFormed(m);
    ChildSmaller(m, i);
    var child := Get(d, key);
    var sub := MergeFrom(child, val, 0);
    if |Props(val)| > 0 {
      assert sub == Merge(child, val);
      MergeShape(child, val, 0);
      MergedAgrees(child, val, 0);
      var c' := sub.obj.value;
      if IsContainer(d) {
        GetSet(d, key, c', key);
      }
      assert Get(d', key) == Some(c');
    }
  }

  lemma EntryAgreesTransfer(x: Json, y: Json, m: Json, i: nat)
    requires i < |Props(m)| && EntryAgrees(x, m, i)
    requires Get(y, Props(m)[i].0) == Get(x, Props(m)[i].0) && (IsContainer(x) ==> IsContainer(y))
    ensures EntryAgrees(y, m, i)
  {
  }

  /** The property a successful iteration merged still agrees once the rest of the loop has run. */
  lemma MergedAgreesHere(obj: Option<Json>, m: Json, i: nat)
    requires WellFormed(m) && i < |Props(m)|
    requires MergeFrom(obj, m, i).ok
    ensures MergeFrom(obj, m, i).obj.Some?
    ensures EntryAgrees(MergeFrom(obj, m, i).obj.value, m, i)
    ensures !MergeFrom(obj, m, i).obj.value.JNull?
    decreases Size(m), 2
  {
    MergeFromOk(obj, m, i);
    var step := MergeStep(obj, m, i);
    var r := MergeFrom(step.obj, m, i + 1);
    StepAgrees(obj, m, i);
    LaterKeysDiffer(m, i);
    MergeOtherKeys(step.obj, m, i + 1, Props(m)[i].0);
    MergeShape(step.obj, m, i + 1);
    EntryAgreesTransfer(step.obj.value, r.obj.value, m, i);
  }

  /** A loop that ran to success had a successful iteration `i`, then carried on from there. */
  lemma MergeFromOk(obj: Option<Json>, m: Json, i: nat)
    requires i < |Props(m)| && MergeFrom(obj, m, i).ok
    ensures MergeStep(obj, m, i).ok
    ensures MergeFrom(obj, m, i) == MergeFrom(MergeStep(obj, m, i).obj, m, i + 1)
  {
  }

  lemma LaterKeysDiffer(m: Json, i: nat)
    requires WellFormed(m) && i < |Props(m)|
    ensures forall j :: i + 1 <= j < |Props(m)| ==> Props(m)[j].0 != Props(m)[i].0
  {
    PropsWellFormed(m);
    LaterPropsDiffer(m, i);
  }

  /** After a successful merge the destination agrees with what was merged into it. */
  lemma {:induction false} MergedAgrees(obj: Option<Json>, m: Json, i: nat)
    requires WellFormed(m) && i <= |Props(m)|
    requires MergeFrom(obj, m, i).ok && MergeFrom(obj, m, i).obj.Some?
    ensures forall j :: i <= j < |Props(m)| ==> EntryAgrees(MergeFrom(obj, m, i).obj.value, m, j)
    ensures i < |Props(m)| ==> !MergeFrom(obj, m, i).obj.value.JNull?
    decreases Size(m), 3 + |Props(m)| - i
  {
    if i < |Props(m)| {
      MergedAgreesHere(obj, m, i);
      var step := MergeStep(obj, m, i);
      var r := MergeFrom(obj, m, i);
      assert step.ok && r == MergeFrom(step.obj, m, i + 1);
      MergedAgrees(step.obj, m, i + 1);
      forall j | i <= j < |Props(m)|
        ensures EntryAgrees(r.obj.value, m, j)
      {
        if j > i {
          assert EntryAgrees(MergeFrom(step.obj, m, i + 1).obj.value, m, j);
        }
      }
    }
  }

  /** mergeObject is idempotent: merging the same value again changes nothing. */
  lemma MergeIdempotent(obj: Option<Json>, m: Json)
    requires WellFormed(m) && Merge(obj, m).ok
    ensures Merge(Merge(obj, m).obj, m) == Merge(obj, m)
  {
    MergeShape(obj, m, 0);
    if Merge(obj, m).obj.Some? {
      MergedAgrees(obj, m, 0);
      MergeAgreeing(Merge(obj, m).obj.value, m);
    }
  }

  lemma AssignStepDistinct(obj: Json, lang: Language, j: nat, json: Entries, nested: Json)
    requires j < |Props(obj)| && nested.JObj? && DistinctKeys(json)
    ensures DistinctKeys(AssignStep(obj, lang, j, json, nested))
  {
    var key := Props(obj)[j].0;
    var val := Props(obj)[j].1;
    PutDistinct(json, key, JObj([(Tag(lang), val)]));
    PutDistinct(json, key, nested);
    PutDistinct(json, key, Wrap(Lookup(json, key), lang, val));
  }

  lemma {:induction false} AssignFromDistinct(obj: Json, lang: Language, j: nat, json: Entries)
    requires j <= |Props(obj)| && DistinctKeys(json)
    ensures DistinctKeys(AssignFrom(obj, lang, j, json))
    decreases |Props(obj)| - j
  {
    if j < |Props(obj)| {
      ChildSmaller(obj, j);
      var val := Props(obj)[j].1;
      var nested := if IsPlainObject(val) then Assignment(val, lang) else JObj([]);
      AssignStepDistinct(obj, lang, j, json, nested);
      AssignFromDistinct(obj, lang, j + 1, AssignStep(obj, lang, j, json, nested));
    }
  }

  /**
   * Re-wrapping a document's own projection gives writes the document
   * already holds, so writing them back is a no-op.
   */
  lemma {:induction false} ProjectionAgrees(doc: Json, lang: Language)
    requires WellFormed(doc)
    ensures Agrees(doc, Assignment(Extraction(doc, lang), lang))
    decreases Size(doc), 2
  {
    var e := Extraction(doc, lang);
    var a := Assignment(e, lang);
    ExtractionWellFormed(doc, lang);
    AssignFromDistinct(e, lang, 0, []);
    PropsWellFormed(doc);
    PropsWellFormed(e);
    if doc.JNull? {
      assert e == JNull;
    }
    forall j | 0 <= j < |Props(a)|
      ensures EntryAgrees(doc, a, j)
    {
      EntryOfProjection(doc, lang, j);
    }
  }

  /** Every key of a well-formed document's projection is a field of the document. */
  lemma ProjectedKey(doc: Json, lang: Language, k: string) returns (p: nat)
    requires WellFormed(doc) && Get(Extraction(doc, lang), k).Some?
    ensures p < |Props(doc)| && Props(doc)[p].0 == k
    ensures Get(Extraction(doc, lang), k) == FieldValue(doc, lang, p)
    ensures Get(doc, k) == Some(Props(doc)[p].1)
  {
    if Find(Props(doc), k).None? {
      ExtractionOutsideProps(doc, lang, k);
      assert false;
    }
    p := Find(Props(doc), k).value;
    ExtractionField(doc, lang, p);
    GetProp(doc, p);
  }

  /** Every key of a re-wrapping of a well-formed value is a key of that value. */
  lemma RewrappedKey(e: Json, lang: Language, k: string) returns (q: nat)
    requires WellFormed(e) && Get(Assignment(e, lang), k).Some?
    ensures q < |Props(e)| && Props(e)[q].0 == k
    ensures Get(Assignment(e, lang), k) == AssignedValue(e, lang, q)
    ensures Get(e, k) == Some(Props(e)[q].1)
  {
    if Find(Props(e), k).None? {
      AssignmentOutsideProps(e, lang, k);
      assert false;
    }
    q := Find(Props(e), k).value;
    AssignmentField(e, lang, q);
    GetProp(e, q);
  }

  lemma {:induction false} EntryOfProjection(doc: Json, lang: Language, j: nat)
    requires WellFormed(doc)
    requires j < |Props(Assignment(Extraction(doc, lang), lang))|
    ensures EntryAgrees(doc, Assignment(Extraction(doc, lang), lang), j)
    decreases Size(doc), 1
  {
    var e := Extraction(doc, lang);
    var a := Assignment(e, lang);
    ExtractionWellFormed(doc, lang);
    AssignFromDistinct(e, lang, 0, []);
    var k := a.entries[j].0;
    FindIs(a.entries, k, j);
    var q := RewrappedKey(e, lang, k);
    var p := ProjectedKey(doc, lang, k);
    PropsWellFormed(doc);
    ChildSmaller(doc, p);
    var d, y := Props(doc)[p].1, Props(e)[q].1;
    assert Get(a, k) == Some(a.entries[j].1) == Rewrapped(y, lang);
    assert FieldOf(k, d, lang) == Some(y);
    FieldAgrees(k, d, lang, y);
    assert Agrees(d, a.entries[j].1);
  }

  /** The re-wrapping of what a field contributes to the projection agrees with the field. */
  lemma {:induction false} FieldAgrees(key: string, val: Json, lang: Language, y: Json)
    requires WellFormed(val) && FieldOf(key, val, lang) == Some(y) && Rewrapped(y, lang).Some?
    ensures Agrees(val, Rewrapped(y, lang).value)
    decreases Size(val), 3
  {
    var first := FirstSupported(Keys(Props(val)));
    if first.Some? && Qualifies(Get(val, Tag(lang))) {
      var x := JObj([(Tag(lang), y)]);
      assert Rewrapped(y, lang).value == x;
      assert EntryAgrees(val, x, 0);
    } else {
      ProjectionAgrees(val, lang);
    }
  }

  /** Writing back the document's own projection in `lang` changes nothing and succeeds. */
  lemma WriteBackOwnProjection(doc: Json, lang: Language)
    requires WellFormed(doc)
    ensures Merge(Some(doc), Assignment(Extraction(doc, lang), lang)) == Merged(Some(doc), true)
  {
    ProjectionAgrees(doc, lang);
    MergeAgreeing(doc, Assignment(Extraction(doc, lang), lang));
  }
}
