/**
 * The encyclopedia routes: the category check, the import normaliser (the
 * first-id-wins filter and transformData) and the detail route's refresh
 * pipeline (source language, extract, translate, re-wrap, merge, save).
 */
module Encyclopedia {
  import opened Wrappers
  import opened Json
  import opened Languages
  import opened EncyclopediaHelpers
  import Translate
  import Transform

  // =====================================================================
  // The category check against modelMap

  datatype Category = Plants | EssentialOils | BasicOils

  /** The keys of modelMap, in declaration order. */
  const ModelKeys: seq<string> := ["plants", "oils", "basic_oils"]

  function CategoryName(c: Category): string {
    match c
    case Plants => "plants"
    case EssentialOils => "oils"
    case BasicOils => "basic_oils"
  }

  /** `Object.keys(modelMap).includes(category)`, with the model it selects; None is the 404 branch. */
  function CategoryOf(name: string): (c: Option<Category>)
    ensures c.Some? <==> name in ModelKeys
  {
    if name == "plants" then Some(Plants)
    else if name == "oils" then Some(EssentialOils)
    else if name == "basic_oils" then Some(BasicOils)
    else None
  }

  /** The check accepts exactly the three model names, each selecting its own model. */
  lemma CategoryRoundTrip(name: string, c: Category)
    ensures CategoryOf(CategoryName(c)) == Some(c)
    ensures CategoryOf(name) == Some(c) ==> name == CategoryName(c)
    ensures CategoryName(c) in ModelKeys
  {
  }

  // =====================================================================
  // getSourceLang

  /** `item.name || item.description` */
  function Sample(item: Json): Option<Json> {
    if TruthyOpt(Get(item, "name")) then Get(item, "name") else Get(item, "description")
  }

  /** Does key `k` of `sample` name a supported language with a truthy value? */
  predicate SourceKey(sample: Json, k: string) {
    IsSupported(k) && TruthyOpt(Get(sample, k))
  }

  /** `Object.keys(sample).find(...)` from position `i`: the first key naming a supported language with a truthy value. */
  function FindSourceKey(sample: Json, ks: seq<string>, i: nat): (r: Option<nat>)
    requires i <= |ks|
    ensures r.Some? ==> i <= r.value < |ks| && SourceKey(sample, ks[r.value])
    ensures r.Some? ==> forall j :: i <= j < r.value ==> !SourceKey(sample, ks[j])
    ensures r.None? ==> forall j :: i <= j < |ks| ==> !SourceKey(sample, ks[j])
    decreases |ks| - i
  {
    if i == |ks| then None
    else if SourceKey(sample, ks[i]) then Some(i)
    else FindSourceKey(sample, ks, i + 1)
  }

  /**
   * getSourceLang: the first key of the sample that is a supported language
   * with a truthy value, 'nl' when there is none. `Object.keys` of undefined
   * or null throws.
   */
  function GetSourceLang(item: Json): (r: Result<Language>)
    ensures r.Failure? <==> Sample(item).None? || Sample(item).value.JNull?
    ensures r.Failure? ==> r.error == TypeError
  {
    match Sample(item)
    case None => Failure(TypeError)
    case Some(sample) =>
      if sample.JNull? then Failure(TypeError)
      else
        var ks := Keys(Props(sample));
        match FindSourceKey(sample, ks, 0)
        case Some(j) => Success(LanguageOfTag(ks[j]))
        case None => Success(Nl)
  }

  /** The source language is the first qualifying key of the sample, or Dutch when no key qualifies. */
  lemma SourceLangIsFirst(item: Json)
    requires GetSourceLang(item).Success?
    ensures var sample := Sample(item).value;
      var ks := Keys(Props(sample));
      var l := GetSourceLang(item).value;
      (exists j :: 0 <= j < |ks| && ks[j] == Tag(l) && SourceKey(sample, ks[j]) &&
         forall i :: 0 <= i < j ==> !SourceKey(sample, ks[i])) ||
      (l == Nl && forall j :: 0 <= j < |ks| ==> !SourceKey(sample, ks[j]))
  {
    var sample := Sample(item).value;
    var ks := Keys(Props(sample));
    match FindSourceKey(sample, ks, 0)
    case Some(j) =>
      assert ks[j] == Tag(GetSourceLang(item).value);
    case None =>
  }

  // =====================================================================
  // The import filter: first occurrence of each truthy id, in order

  /** `_item.id`, which throws on null. */
  function IdOf(item: Json): Result<Option<Json>> {
    if item.JNull? then Failure(TypeError) else Success(Field(item, "id"))
  }

  /** The filter from item `i` on, with the ids seen so far and the items kept so far. */
  function KeepFrom(items: seq<Json>, i: nat, seen: set<Json>, kept: seq<Json>): Result<seq<Json>>
    requires i <= |items|
    decreases |items| - i
  {
    if i == |items| then Success(kept)
    else
      var id :- IdOf(items[i]);
      if TruthyOpt(id) && id.value !in seen then KeepFrom(items, i + 1, seen + {id.value}, kept + [items[i]])
      else KeepFrom(items, i + 1, seen, kept)
  }

  function UniqueById(items: seq<Json>): Result<seq<Json>> {
    KeepFrom(items, 0, {}, [])
  }

  /** `items.filter(...)` with the `uniqueIds` set it updates. */
  method FilterUnique(items: seq<Json>) returns (r: Result<seq<Json>>)
    ensures r == UniqueById(items)
  {
    var uniqueIds: set<Json> := {};
    var kept: seq<Json> := [];
    var i := 0;
    while i < |items|
      invariant i <= |items|
      invariant KeepFrom(items, i, uniqueIds, kept) == UniqueById(items)
    {
      if items[i].JNull? {
        return Failure(TypeError);
      }
      var id := Field(items[i], "id");
      if TruthyOpt(id) && id.value !in uniqueIds {
        uniqueIds := uniqueIds + {id.value};
        kept := kept + [items[i]];
      }
      i := i + 1;
    }
    r := Success(kept);
  }

  /** The dedup key of an item: its `id` when truthy, else None (such an item is dropped). */
  function IdKey(item: Json): (key: Option<Json>)
    ensures key.Some? <==> TruthyOpt(Field(item, "id"))
    ensures key.Some? ==> key == Field(item, "id")
  {
    var id := Field(item, "id");
    if TruthyOpt(id) then id else None
  }

  function IdKeys(items: seq<Json>): (keys: seq<Option<Json>>)
    ensures |keys| == |items| && forall j :: 0 <= j < |items| ==> keys[j] == IdKey(items[j])
  {
    seq(|items|, j requires 0 <= j < |items| => IdKey(items[j]))
  }

  /** Position `j` carries a key no earlier position carries. */
  predicate FirstOfKey<K(==)>(keys: seq<Option<K>>, j: nat)
    requires j < |keys|
  {
    keys[j].Some? && forall l :: 0 <= l < j ==> keys[l] != keys[j]
  }

  /** The reference filter: the positions among the first `n` that are first of their key, in order. */
  function FirstIndices<K(==)>(keys: seq<Option<K>>, n: nat): (r: seq<nat>)
    requires n <= |keys|
    ensures forall a :: 0 <= a < |r| ==> r[a] < n
  {
    if n == 0 then [] else FirstIndices(keys, n - 1) + (if FirstOfKey(keys, n - 1) then [n - 1] else [])
  }

  /** The items at the given positions. */
  function Pick<T>(items: seq<T>, idx: seq<nat>): (r: seq<T>)
    requires forall a :: 0 <= a < |idx| ==> idx[a] < |items|
    ensures |r| == |idx| && forall a :: 0 <= a < |idx| ==> r[a] == items[idx[a]]
  {
    seq(|idx|, a requires 0 <= a < |idx| => items[idx[a]])
  }

  /** The same filter over precomputed keys: keep an item when its key is present and unseen. */
  function KeepByKey<T, K(==)>(keys: seq<Option<K>>, items: seq<T>, i: nat, seen: set<K>, kept: seq<T>): seq<T>
    requires |keys| == |items| && i <= |items|
    decreases |items| - i
  {
    if i == |items| then kept
    else if keys[i].Some? && keys[i].value !in seen then KeepByKey(keys, items, i + 1, seen + {keys[i].value}, kept + [items[i]])
    else KeepByKey(keys, items, i + 1, seen, kept)
  }

  /** The keys among the first `n` positions. */
  function SeenKeys<K(==)>(keys: seq<Option<K>>, n: nat): set<K>
    requires n <= |keys|
  {
    if n == 0 then {}
    else SeenKeys(keys, n - 1) + (if keys[n - 1].Some? then {keys[n - 1].value} else {})
  }

  lemma {:induction false} SeenKeysHas<K>(keys: seq<Option<K>>, n: nat, x: K)
    requires n <= |keys|
    ensures x in SeenKeys(keys, n) <==> exists l :: 0 <= l < n && keys[l] == Some(x)
  {
    if n > 0 {
      SeenKeysHas(keys, n - 1, x);
      if x in SeenKeys(keys, n - 1) {
        var l :| 0 <= l < n - 1 && keys[l] == Some(x);
        assert 0 <= l < n;
      }
    }
  }

  /** A position is first of its key exactly when its key is present and not yet seen. */
  lemma FirstIsUnseen<K>(keys: seq<Option<K>>, j: nat)
    requires j < |keys|
    ensures FirstOfKey(keys, j) <==> keys[j].Some? && keys[j].value !in SeenKeys(keys, j)
  {
    if keys[j].Some? {
      SeenKeysHas(keys, j, keys[j].value);
    }
  }

  /** One step of the filter over an item that is not null, in terms of its key. */
  lemma KeepStep(items: seq<Json>, i: nat, seen: set<Json>, kept: seq<Json>)
    requires i < |items| && !items[i].JNull?
    ensures var key := IdKey(items[i]);
      KeepFrom(items, i, seen, kept) ==
        if key.Some? && key.value !in seen then KeepFrom(items, i + 1, seen + {key.value}, kept + [items[i]])
        else KeepFrom(items, i + 1, seen, kept)
  {
  }

  /** On items that are not null, the filter is the key-based filter over their id keys. */
  lemma {:induction false} KeepFromByKey(items: seq<Json>, keys: seq<Option<Json>>, i: nat, seen: set<Json>, kept: seq<Json>)
    requires |keys| == |items| && i <= |items|
    requires forall j :: i <= j < |items| ==> !items[j].JNull? && keys[j] == IdKey(items[j])
    ensures KeepFrom(items, i, seen, kept) == Success(KeepByKey(keys, items, i, seen, kept))
    decreases |items| - i
  {
    if i < |items| {
      KeepStep(items, i, seen, kept);
      if keys[i].Some? && keys[i].value !in seen {
        KeepFromByKey(items, keys, i + 1, seen + {keys[i].value}, kept + [items[i]]);
      } else {
        KeepFromByKey(items, keys, i + 1, seen, kept);
      }
    }
  }

  lemma PickSnoc<T>(items: seq<T>, idx: seq<nat>, i: nat)
    requires i < |items| && forall a :: 0 <= a < |idx| ==> idx[a] < |items|
    ensures Pick(items, idx + [i]) == Pick(items, idx) + [items[i]]
  {
    assert forall a :: 0 <= a < |idx| ==> (idx + [i])[a] == idx[a];
  }

  /** The key-based filter, started after `i` positions, keeps exactly the first positions. */
  lemma {:induction false} KeepByKeyFirsts<T, K>(keys: seq<Option<K>>, items: seq<T>, i: nat)
    requires |keys| == |items| && i <= |items|
    ensures KeepByKey(keys, items, i, SeenKeys(keys, i), Pick(items, FirstIndices(keys, i))) ==
      Pick(items, FirstIndices(keys, |items|))
    decreases |items| - i
  {
    if i < |items| {
      var idx := FirstIndices(keys, i);
      var seen := SeenKeys(keys, i);
      var kept := Pick(items, idx);
      KeepByKeyFirsts(keys, items, i + 1);
      FirstIsUnseen(keys, i);
      if FirstOfKey(keys, i) {
        assert FirstIndices(keys, i + 1) == idx + [i];
        PickSnoc(items, idx, i);
        assert SeenKeys(keys, i + 1) == seen + {keys[i].value};
      } else {
        assert FirstIndices(keys, i + 1) == idx;
        assert SeenKeys(keys, i + 1) == seen;
      }
    }
  }

  lemma {:induction false} KeepFromFails(items: seq<Json>, i: nat, seen: set<Json>, kept: seq<Json>)
    requires i <= |items|
    ensures KeepFrom(items, i, seen, kept).Failure? <==> exists j :: i <= j < |items| && items[j].JNull?
    ensures KeepFrom(items, i, seen, kept).Failure? ==> KeepFrom(items, i, seen, kept).error == TypeError
    decreases |items| - i
  {
    if i < |items| && !items[i].JNull? {
      var id := Field(items[i], "id");
      if TruthyOpt(id) && id.value !in seen {
        KeepFromFails(items, i + 1, seen + {id.value}, kept + [items[i]]);
      } else {
        KeepFromFails(items, i + 1, seen, kept);
      }
      if exists j :: i <= j < |items| && items[j].JNull? {
        var j :| i <= j < |items| && items[j].JNull?;
        assert i + 1 <= j;
      }
    }
  }

  /**
   * The filter keeps, in their order, exactly the items whose truthy id no
   * earlier item carries; it throws a TypeError exactly when an item is null.
   */
  lemma UniqueByIdIsFirsts(items: seq<Json>)
    ensures UniqueById(items).Failure? <==> exists j :: 0 <= j < |items| && items[j].JNull?
    ensures UniqueById(items).Failure? ==> UniqueById(items).error == TypeError
    ensures UniqueById(items).Success? ==> UniqueById(items).value == Pick(items, FirstIndices(IdKeys(items), |items|))
  {
    KeepFromFails(items, 0, {}, []);
    if forall j :: 0 <= j < |items| ==> !items[j].JNull? {
      KeepFromByKey(items, IdKeys(items), 0, {}, []);
      KeepByKeyFirsts(IdKeys(items), items, 0);
    }
  }

  predicate Increasing(idx: seq<nat>) {
    forall a, b :: 0 <= a < b < |idx| ==> idx[a] < idx[b]
  }

  predicate AllFirst<K(==)>(keys: seq<Option<K>>, idx: seq<nat>) {
    forall a :: 0 <= a < |idx| ==> idx[a] < |keys| && FirstOfKey(keys, idx[a])
  }

  /** The kept positions are increasing and each is first of its key. */
  lemma {:induction false} FirstsOrdered<K>(keys: seq<Option<K>>, n: nat)
    requires n <= |keys|
    ensures Increasing(FirstIndices(keys, n)) && AllFirst(keys, FirstIndices(keys, n))
  {
    if n > 0 {
      FirstsOrdered(keys, n - 1);
      var prev := FirstIndices(keys, n - 1);
      if FirstOfKey(keys, n - 1) {
        var idx := prev + [n - 1];
        assert FirstIndices(keys, n) == idx;
        assert forall a :: 0 <= a < |prev| ==> idx[a] == prev[a] && prev[a] < n - 1;
        assert idx[|prev|] == n - 1;
      }
    }
  }

  /** A position first of its key below `n` is kept. */
  lemma {:induction false} FirstKept<K>(keys: seq<Option<K>>, n: nat, l: nat)
    requires l < n <= |keys| && FirstOfKey(keys, l)
    ensures l in FirstIndices(keys, n)
  {
    if l < n - 1 {
      FirstKept(keys, n - 1, l);
    }
  }

  /** Every present key has a first position at or before it. */
  lemma {:induction false} FirstOccurrence<K>(keys: seq<Option<K>>, j: nat) returns (l: nat)
    requires j < |keys| && keys[j].Some?
    ensures l <= j && FirstOfKey(keys, l) && keys[l] == keys[j]
  {
    if FirstOfKey(keys, j) {
      l := j;
    } else {
      var m :| 0 <= m < j && keys[m] == keys[j];
      l := FirstOccurrence(keys, m);
    }
  }

  /** Every key among the first `n` positions is carried by a kept position. */
  lemma FirstsCover<K>(keys: seq<Option<K>>, n: nat)
    requires n <= |keys|
    ensures forall j :: 0 <= j < n && keys[j].Some? ==> exists l :: l in FirstIndices(keys, n) && keys[l] == keys[j]
  {
    forall j | 0 <= j < n && keys[j].Some?
      ensures exists l :: l in FirstIndices(keys, n) && keys[l] == keys[j]
    {
      var l := FirstOccurrence(keys, j);
      FirstKept(keys, n, l);
    }
  }

  /** No two kept positions share a key. */
  lemma FirstsDistinct<K>(keys: seq<Option<K>>, n: nat)
    requires n <= |keys|
    ensures var idx := FirstIndices(keys, n);
      forall a, b :: 0 <= a < b < |idx| ==> keys[idx[a]] != keys[idx[b]]
  {
    FirstsOrdered(keys, n);
    var idx := FirstIndices(keys, n);
    forall a, b | 0 <= a < b < |idx|
      ensures keys[idx[a]] != keys[idx[b]]
    {
      assert idx[a] < idx[b] && FirstOfKey(keys, idx[b]);
    }
  }

  // =====================================================================
  // transformData: one import record to the stored document shape

  /** `{ nl: v }`; an undefined `v` leaves the wrapper without a property. */
  function Dutch(v: Option<Json>): (r: Json)
    ensures r.JObj? && Lookup(r.entries, "nl") == v && (forall k :: k != "nl" ==> Lookup(r.entries, k) == None)
  {
    JObj(if v.Some? then [("nl", v.value)] else [])
  }

  /**
   * A name or description wrapped at import reads back, through
   * getTranslatedValue, as its Dutch value in whatever language is asked for.
   */
  lemma ImportedReadsDutch(v: Option<Json>, lang: string)
    ensures Translate.GetTranslatedValue(Dutch(v), lang) == Success(v)
  {
    assert Get(Dutch(v), lang) == (if lang == "nl" then v else None);
  }

  /** The keys of the `output` literal, in order. */
  const ImportKeys: seq<string> := ["id", "img", "name", "isPremium", "scientificName", "description"]

  /** `{ src: img.src, alt: { nl: img.alt } }` */
  function ImportImg(img: Json): Json {
    JObj(Transform.Present([("src", Field(img, "src")), ("alt", Some(Dutch(Field(img, "alt"))))]))
  }

  /** The `output` literal's fields for an input whose `img` is `img`. */
  function HeaderFields(input: Json, img: Json): seq<(string, Option<Json>)> {
    [("id", Field(input, "id")),
     ("img", Some(ImportImg(img))),
     ("name", Some(Dutch(Field(input, "name")))),
     ("isPremium", Field(input, "isPremium")),
     ("scientificName", Field(input, "scientificName")),
     ("description", Some(Dutch(Field(input, "description"))))]
  }

  /** The `output` literal, or the TypeError that reading `input.id` or `input.img.src` throws. */
  function ImportHeader(input: Json): Result<Entries> {
    if input.JNull? then Failure(TypeError)
    else
      var img := Field(input, "img");
      if img.None? || img.value.JNull? then Failure(TypeError)
      else Success(Transform.Present(HeaderFields(input, img.value)))
  }

  /** The keys whose branch reads a property of `item[key]`, which throws when it is null. */
  const ReadingKeys: seq<string> := ["facts", "article", "sustainability", "anecdote"]

  predicate Throws(key: string, val: Json) {
    key in ReadingKeys && val.JNull?
  }

  /** The property of `output` a data key writes: `relatedPlants` is renamed `related`. */
  function OutKey(key: string): (k: string)
    ensures k != "relatedPlants"
  {
    if key == "relatedPlants" then "related" else key
  }

  /**
   * The final write of one data entry `key: val`, as the key it lands under
   * and the value; for `sustainability` and `anecdote` the second write
   * (`{ nl: val.text }`) replaces the first.
   */
  function ImportValue(key: string, val: Json): (r: Result<(string, Json)>)
    ensures r.Failure? <==> Throws(key, val)
    ensures r.Failure? ==> r.error == TypeError
    ensures r.Success? ==> r.value.0 == OutKey(key)
  {
    if key == "relatedPlants" then Success(("related", val))
    else if key == "facts" then
      if val.JNull? then Failure(TypeError)
      else Success((key, JObj([("usedParts", Dutch(Field(val, "usedParts"))),
                               ("origin", Dutch(Field(val, "origin"))),
                               ("growth", Dutch(Field(val, "growth")))])))
    else if key == "article" then
      if val.JNull? then Failure(TypeError)
      else Success((key, JObj([("applications", Dutch(Field(val, "usedParts"))),
                               ("usage", Dutch(Field(val, "origin"))),
                               ("contraindications", Dutch(Field(val, "growth")))])))
    else if key == "sustainability" || key == "anecdote" then
      if val.JNull? then Failure(TypeError)
      else Success((key, Dutch(Field(val, "text"))))
    else Success((key, Dutch(Some(val))))
  }

  /** The `for (const key in item)` loop over the entries `ps`, writing into `out`. */
  function EntriesFrom(ps: Entries, out: Entries): Result<Entries>
    decreases |ps|
  {
    if ps == [] then Success(out)
    else
      var w :- ImportValue(ps[0].0, ps[0].1);
      EntriesFrom(ps[1..], Put(out, w.0, w.1))
  }

  /** `input.data.map(...)`: each item's own properties in turn. */
  function ItemsFrom(data: seq<Json>, out: Entries): Result<Entries>
    decreases |data|
  {
    if data == [] then Success(out)
    else
      var o :- EntriesFrom(Props(data[0]), out);
      ItemsFrom(data[1..], o)
  }

  /** `input.data`, which must be an array for `.map` to exist. */
  function DataOf(input: Json): Result<seq<Json>> {
    var data := Field(input, "data");
    if data.Some? && data.value.JArr? then Success(data.value.items) else Failure(TypeError)
  }

  function TransformDataSpec(input: Json): Result<Json> {
    var header :- ImportHeader(input);
    var data :- DataOf(input);
    var out :- ItemsFrom(data, header);
    Success(JObj(out))
  }

  /** transformData, filling `output` in place inside the loop over `input.data`. */
  method TransformData(input: Json) returns (r: Result<Json>)
    ensures r == TransformDataSpec(input)
  {
    var header := ImportHeader(input);
    if header.Failure? {
      return Failure(TypeError);
    }
    var data := DataOf(input);
    if data.Failure? {
      return Failure(TypeError);
    }
    var items := data.value;
    var output := header.value;
    var i := 0;
    while i < |items|
      invariant i <= |items|
      invariant ItemsFrom(items[i..], output) == ItemsFrom(items, header.value)
    {
      var ps := Props(items[i]);
      assert items[i..][0] == items[i] && items[i..][1..] == items[i + 1..];
      var j := 0;
      while j < |ps|
        invariant j <= |ps|
        invariant (var o :- EntriesFrom(ps[j..], output); ItemsFrom(items[i + 1..], o)) == ItemsFrom(items, header.value)
      {
        var key, val := ps[j].0, ps[j].1;
        assert ps[j..][0] == ps[j] && ps[j..][1..] == ps[j + 1..];
        ghost var before := output;
        if key == "relatedPlants" {
          output := Put(output, "related", val);
        } else if key == "facts" {
          if val.JNull? {
            return Failure(TypeError);
          }
          output := Put(output, key, JObj([("usedParts", Dutch(Field(val, "usedParts"))),
                                           ("origin", Dutch(Field(val, "origin"))),
                                           ("growth", Dutch(Field(val, "growth")))]));
        } else if key == "article" {
          if val.JNull? {
            return Failure(TypeError);
          }
          output := Put(output, key, JObj([("applications", Dutch(Field(val, "usedParts"))),
                                           ("usage", Dutch(Field(val, "origin"))),
                                           ("contraindications", Dutch(Field(val, "growth")))]));
        } else {
          output := Put(output, key, Dutch(Some(val)));
        }
        if key == "sustainability" || key == "anecdote" {
          if val.JNull? {
            return Failure(TypeError);
          }
          PutOver(before, key, Dutch(Some(val)), Dutch(Field(val, "text")));
          output := Put(output, key, Dutch(Field(val, "text")));
        }
        j := j + 1;
      }
      i := i + 1;
    }
    r := Success(JObj(output));
  }

  // ---------------------------------------------------------------------
  // What transformData promises

  /** Looping over `a + b` is looping over `a`, then over `b`. */
  lemma {:induction false} EntriesAppend(a: Entries, b: Entries, out: Entries)
    ensures EntriesFrom(a + b, out) == (var o :- EntriesFrom(a, out); EntriesFrom(b, o))
    decreases |a|
  {
    if a == [] {
      assert a + b == b;
    } else {
      assert (a + b)[0] == a[0] && (a + b)[1..] == a[1..] + b;
      match ImportValue(a[0].0, a[0].1)
      case Success(w) => EntriesAppend(a[1..], b, Put(out, w.0, w.1));
      case Failure(_) =>
    }
  }

  /** Every data item's own properties, in order: what the nested loops visit. */
  function Flat(data: seq<Json>): Entries
    decreases |data|
  {
    if data == [] then [] else Props(data[0]) + Flat(data[1..])
  }

  /** The loop over the items is one loop over all their properties in turn. */
  lemma {:induction false} ItemsFlat(data: seq<Json>, out: Entries)
    ensures ItemsFrom(data, out) == EntriesFrom(Flat(data), out)
    decreases |data|
  {
    if data != [] {
      EntriesAppend(Props(data[0]), Flat(data[1..]), out);
      match EntriesFrom(Props(data[0]), out)
      case Success(o) => ItemsFlat(data[1..], o);
      case Failure(_) =>
    }
  }

  /** The loop throws exactly when some entry under a reading key is null, and then a TypeError. */
  lemma {:induction false} EntriesFails(ps: Entries, out: Entries)
    ensures EntriesFrom(ps, out).Failure? <==> exists m :: 0 <= m < |ps| && Throws(ps[m].0, ps[m].1)
    ensures EntriesFrom(ps, out).Failure? ==> EntriesFrom(ps, out).error == TypeError
    decreases |ps|
  {
    if ps != [] && !Throws(ps[0].0, ps[0].1) {
      var w := ImportValue(ps[0].0, ps[0].1).value;
      EntriesFails(ps[1..], Put(out, w.0, w.1));
      if exists m :: 0 <= m < |ps| && Throws(ps[m].0, ps[m].1) {
        var m :| 0 <= m < |ps| && Throws(ps[m].0, ps[m].1);
        assert ps[1..][m - 1] == ps[m];
      }
      if exists m :: 0 <= m < |ps[1..]| && Throws(ps[1..][m].0, ps[1..][m].1) {
        var m :| 0 <= m < |ps[1..]| && Throws(ps[1..][m].0, ps[1..][m].1);
        assert ps[m + 1] == ps[1..][m];
      }
    }
  }

  /** The position of the last entry among the first `n` that writes property `k` of `output`. */
  function LastBefore(ps: Entries, k: string, n: nat): (r: Option<nat>)
    requires n <= |ps|
    ensures r.Some? ==> r.value < n && OutKey(ps[r.value].0) == k
    ensures r.Some? ==> forall m :: r.value < m < n ==> OutKey(ps[m].0) != k
    ensures r.None? ==> forall m :: 0 <= m < n ==> OutKey(ps[m].0) != k
  {
    if n == 0 then None
    else if OutKey(ps[n - 1].0) == k then Some(n - 1)
    else LastBefore(ps, k, n - 1)
  }

  function LastOut(ps: Entries, k: string): Option<nat> {
    LastBefore(ps, k, |ps|)
  }

  /** Last writer wins over the first `n` entries. */
  lemma {:induction false} PrefixLookup(ps: Entries, n: nat, out: Entries, k: string)
    requires n <= |ps| && EntriesFrom(ps[..n], out).Success?
    ensures var r := EntriesFrom(ps[..n], out).value;
      match LastBefore(ps, k, n)
      case Some(m) => ImportValue(ps[m].0, ps[m].1).Success? && Lookup(r, k) == Some(ImportValue(ps[m].0, ps[m].1).value.1)
      case None => Lookup(r, k) == Lookup(out, k)
  {
    if n == 0 {
      assert ps[..0] == [];
    } else {
      assert ps[..n] == ps[..n - 1] + [ps[n - 1]];
      EntriesAppend(ps[..n - 1], [ps[n - 1]], out);
      var o := EntriesFrom(ps[..n - 1], out).value;
      PrefixLookup(ps, n - 1, out, k);
      var w := ImportValue(ps[n - 1].0, ps[n - 1].1).value;
      assert [ps[n - 1]][1..] == [];
      LookupPut(o, w.0, w.1, k);
    }
  }

  /** Last writer wins: property `k` holds what the last entry writing it wrote, else what `out` held. */
  lemma EntriesLookup(ps: Entries, out: Entries, k: string)
    requires EntriesFrom(ps, out).Success?
    ensures var r := EntriesFrom(ps, out).value;
      match LastOut(ps, k)
      case Some(m) => ImportValue(ps[m].0, ps[m].1).Success? && Lookup(r, k) == Some(ImportValue(ps[m].0, ps[m].1).value.1)
      case None => Lookup(r, k) == Lookup(out, k)
  {
    assert ps[..|ps|] == ps;
    PrefixLookup(ps, |ps|, out, k);
  }

  /** The `img` wrapper reads back `img.src` and `{ nl: img.alt }`. */
  lemma ImportImgLookup(img: Json)
    ensures Lookup(ImportImg(img).entries, "src") == Field(img, "src")
    ensures Lookup(ImportImg(img).entries, "alt") == Some(Dutch(Field(img, "alt")))
  {
    var fields := [("src", Field(img, "src")), ("alt", Some(Dutch(Field(img, "alt"))))];
    assert Transform.Present(fields) + [] == Transform.Present(fields);
    Transform.PresentLookup(fields, [], 0);
    Transform.PresentLookup(fields, [], 1);
  }

  /** transformData's header throws, a TypeError, exactly on a null input or a missing or null `img`. */
  lemma ImportHeaderFails(input: Json)
    ensures ImportHeader(input).Failure? <==>
      input.JNull? || Field(input, "img").None? || Field(input, "img").value.JNull?
    ensures ImportHeader(input).Failure? ==> ImportHeader(input).error == TypeError
  {
  }

  /** Six fields named as the `output` literal's keys read back their own values. */
  lemma ImportFieldsLookup(fields: seq<(string, Option<Json>)>)
    requires |fields| == 6 && forall j :: 0 <= j < 6 ==> fields[j].0 == ImportKeys[j]
    ensures forall j :: 0 <= j < 6 ==> Lookup(Transform.Present(fields), ImportKeys[j]) == fields[j].1
  {
    assert Transform.Present(fields) + [] == Transform.Present(fields);
    forall j | 0 <= j < 6
      ensures Lookup(Transform.Present(fields), ImportKeys[j]) == fields[j].1
    {
      Transform.PresentLookup(fields, [], j);
    }
  }

  /**
   * Otherwise `id`, `isPremium` and `scientificName` are copied, `img`
   * rebuilt, and `name` and `description` wrapped as `{ nl: ... }`.
   */
  lemma ImportHeaderLookup(input: Json)
    requires ImportHeader(input).Success?
    ensures var h := ImportHeader(input).value;
      Lookup(h, "id") == Field(input, "id") &&
      Lookup(h, "img") == Some(ImportImg(Field(input, "img").value)) &&
      Lookup(h, "name") == Some(Dutch(Field(input, "name"))) &&
      Lookup(h, "isPremium") == Field(input, "isPremium") &&
      Lookup(h, "scientificName") == Field(input, "scientificName") &&
      Lookup(h, "description") == Some(Dutch(Field(input, "description")))
  {
    var fields := HeaderFields(input, Field(input, "img").value);
    ImportFieldsLookup(fields);
    var h := Transform.Present(fields);
    assert Lookup(h, ImportKeys[0]) == fields[0].1 && Lookup(h, ImportKeys[1]) == fields[1].1;
    assert Lookup(h, ImportKeys[2]) == fields[2].1 && Lookup(h, ImportKeys[3]) == fields[3].1;
    assert Lookup(h, ImportKeys[4]) == fields[4].1 && Lookup(h, ImportKeys[5]) == fields[5].1;
  }

  /** ... and it sets nothing else. */
  lemma ImportHeaderOnly(input: Json, k: string)
    requires ImportHeader(input).Success? && k !in ImportKeys
    ensures Lookup(ImportHeader(input).value, k) == None
  {
    var fields := HeaderFields(input, Field(input, "img").value);
    assert Transform.Present(fields) + [] == Transform.Present(fields);
    Transform.PresentAbsent(fields, [], k);
  }

  /** `input.data` with a null under a reading key somewhere in it. */
  predicate DataThrows(data: seq<Json>) {
    exists m :: 0 <= m < |Flat(data)| && Throws(Flat(data)[m].0, Flat(data)[m].1)
  }

  /**
   * transformData throws, always a TypeError, exactly when the input is null,
   * its `img` is missing or null, its `data` is not an array, or some data
   * item has a null `facts`, `article`, `sustainability` or `anecdote`.
   */
  lemma TransformDataFails(input: Json)
    ensures TransformDataSpec(input).Failure? <==>
      ImportHeader(input).Failure? || DataOf(input).Failure? || DataThrows(DataOf(input).value)
    ensures TransformDataSpec(input).Failure? ==> TransformDataSpec(input).error == TypeError
    ensures DataOf(input).Failure? <==> !(Field(input, "data").Some? && Field(input, "data").value.JArr?)
  {
    ImportHeaderFails(input);
    if ImportHeader(input).Success? && DataOf(input).Success? {
      ItemsFlat(DataOf(input).value, ImportHeader(input).value);
      EntriesFails(Flat(DataOf(input).value), ImportHeader(input).value);
    }
  }

  /**
   * Every property of transformData's result: the value the last data entry
   * writing it wrote (later items and later keys overwrite earlier ones),
   * else the header's.
   */
  lemma TransformDataLookup(input: Json, k: string)
    requires TransformDataSpec(input).Success?
    ensures var ps := Flat(DataOf(input).value);
      var out := TransformDataSpec(input).value.entries;
      match LastOut(ps, k)
      case Some(m) => ImportValue(ps[m].0, ps[m].1).Success? && Lookup(out, k) == Some(ImportValue(ps[m].0, ps[m].1).value.1)
      case None => Lookup(out, k) == Lookup(ImportHeader(input).value, k)
  {
    ItemsFlat(DataOf(input).value, ImportHeader(input).value);
    EntriesLookup(Flat(DataOf(input).value), ImportHeader(input).value, k);
  }

  /** `relatedPlants` is always renamed: the result never has such a property. */
  lemma NoRelatedPlants(input: Json)
    requires TransformDataSpec(input).Success?
    ensures Lookup(TransformDataSpec(input).value.entries, "relatedPlants") == None
  {
    TransformDataLookup(input, "relatedPlants");
    ImportHeaderOnly(input, "relatedPlants");
  }

  /**
   * The `article` branch fills `applications`, `usage` and `contraindications`
   * from the same three properties `facts` reads, `usedParts`, `origin` and
   * `growth`, in order.
   */
  lemma ArticleMirrorsFacts(val: Json)
    requires !val.JNull?
    ensures var a := ImportValue("article", val).value.1; var f := ImportValue("facts", val).value.1;
      a.JObj? && f.JObj? && |a.entries| == |f.entries| == 3 &&
      forall i :: 0 <= i < 3 ==> a.entries[i].1 == f.entries[i].1
  {
  }

  // =====================================================================
  // POST /import/:category: the records the route hands to insertMany

  /** `items.map(f)` for an `f` that may throw: the first record that throws ends it. */
  function MapAll<T, U>(f: T -> Result<U>, items: seq<T>): Result<seq<U>>
    decreases |items|
  {
    if items == [] then Success([])
    else
      var x :- f(items[0]);
      var rest :- MapAll(f, items[1..]);
      Success([x] + rest)
  }

  /** Mapping `a + b` maps `a`, then `b`. */
  lemma {:induction false} MapAllAppend<T, U>(f: T -> Result<U>, a: seq<T>, b: seq<T>)
    ensures MapAll(f, a + b) == (var r :- MapAll(f, a); var t :- MapAll(f, b); Success(r + t))
    decreases |a|
  {
    if a == [] {
      assert a + b == b;
      match MapAll(f, b)
      case Success(t) => assert [] + t == t;
      case Failure(_) =>
    } else {
      assert (a + b)[0] == a[0] && (a + b)[1..] == a[1..] + b;
      MapAllAppend(f, a[1..], b);
      match f(a[0])
      case Failure(_) =>
      case Success(x) =>
        match MapAll(f, a[1..])
        case Failure(_) =>
        case Success(r) =>
          match MapAll(f, b)
          case Failure(_) =>
          case Success(t) => assert [x] + r + t == [x] + (r + t);
    }
  }

  /** One more record: the map of a longer prefix. */
  lemma MapAllSnoc<T, U>(f: T -> Result<U>, items: seq<T>, i: nat)
    requires i < |items|
    ensures MapAll(f, items[..i + 1]) == (var r :- MapAll(f, items[..i]); var y :- f(items[i]); Success(r + [y]))
  {
    assert items[..i + 1] == items[..i] + [items[i]];
    MapAllAppend(f, items[..i], [items[i]]);
    assert [items[i]][1..] == [];
    match f(items[i])
    case Failure(_) =>
    case Success(y) => assert [y] + [] == [y];
  }

  /** A prefix that throws makes the whole map throw the same. */
  lemma MapAllPrefixFails<T, U>(f: T -> Result<U>, items: seq<T>, i: nat)
    requires i <= |items| && MapAll(f, items[..i]).Failure?
    ensures MapAll(f, items) == MapAll(f, items[..i])
  {
    assert items == items[..i] + items[i..];
    MapAllAppend(f, items[..i], items[i..]);
  }

  /** The map succeeds exactly when every record does, and then holds their images in order. */
  lemma {:induction false} MapAllIs<T, U>(f: T -> Result<U>, items: seq<T>)
    ensures MapAll(f, items).Success? <==> forall a :: 0 <= a < |items| ==> f(items[a]).Success?
    ensures MapAll(f, items).Failure? ==> exists a :: 0 <= a < |items| && f(items[a]) == Failure(MapAll(f, items).error)
    ensures MapAll(f, items).Success? ==>
      |MapAll(f, items).value| == |items| &&
      forall a :: 0 <= a < |items| ==> MapAll(f, items).value[a] == f(items[a]).value
    decreases |items|
  {
    if items != [] {
      MapAllIs(f, items[1..]);
      assert forall a :: 1 <= a < |items| ==> items[1..][a - 1] == items[a];
      if f(items[0]).Success? && MapAll(f, items[1..]).Failure? {
        var a :| 0 <= a < |items[1..]| && f(items[1..][a]) == Failure(MapAll(f, items[1..]).error);
        assert f(items[a + 1]) == Failure(MapAll(f, items).error);
      }
    }
  }

  /** `items.filter(...).map(transformData)`; a body that is not an array has no `filter` and throws. */
  function ImportFormatted(body: Json): Result<seq<Json>> {
    if !body.JArr? then Failure(TypeError)
    else
      var kept :- UniqueById(body.items);
      MapAll(TransformDataSpec, kept)
  }

  method FormatImport(body: Json) returns (r: Result<seq<Json>>)
    ensures r == ImportFormatted(body)
  {
    if !body.JArr? {
      return Failure(TypeError);
    }
    var kept := FilterUnique(body.items);
    if kept.Failure? {
      return Failure(kept.error);
    }
    var items := kept.value;
    var formatted: seq<Json> := [];
    var i := 0;
    while i < |items|
      invariant i <= |items|
      invariant MapAll(TransformDataSpec, items[..i]) == Success(formatted)
    {
      var x := TransformData(items[i]);
      MapAllSnoc(TransformDataSpec, items, i);
      if x.Failure? {
        MapAllPrefixFails(TransformDataSpec, items, i + 1);
        return Failure(x.error);
      }
      formatted := formatted + [x.value];
      i := i + 1;
    }
    assert items[..i] == items;
    r := Success(formatted);
  }

  /**
   * The import keeps, in order, the first record of each truthy id and
   * transforms each; it throws a TypeError when the body is not an array,
   * a record is null, or a kept record fails transformData.
   */
  lemma ImportFormattedIs(body: Json)
    ensures ImportFormatted(body).Failure? ==> ImportFormatted(body).error == TypeError
    ensures ImportFormatted(body).Success? ==>
      body.JArr? &&
      var kept := Pick(body.items, FirstIndices(IdKeys(body.items), |body.items|));
      |ImportFormatted(body).value| == |kept| &&
      forall a :: 0 <= a < |kept| ==>
        TransformDataSpec(kept[a]).Success? && ImportFormatted(body).value[a] == TransformDataSpec(kept[a]).value
  {
    if body.JArr? {
      UniqueByIdIsFirsts(body.items);
      if UniqueById(body.items).Success? {
        var kept := UniqueById(body.items).value;
        MapAllIs(TransformDataSpec, kept);
        if MapAll(TransformDataSpec, kept).Failure? {
          var a :| 0 <= a < |kept| && TransformDataSpec(kept[a]) == Failure(MapAll(TransformDataSpec, kept).error);
          TransformDataFails(kept[a]);
        }
      }
    }
  }

  // =====================================================================
  // GET /:category/:id: the refresh pipeline on a found document

  /** The document after the pipeline, and what it threw; None means it reached `item.save()`. */
  datatype Outcome = Outcome(doc: Json, thrown: Option<Error>)

  /**
   * getSourceLang, extractValues in the source language, translateJson to
   * `lang`, assignTranslatedValues and mergeObject into the document. A
   * merge that stops part-way leaves the document partly merged.
   */
  function Refresh(doc: Json, lang: Language, translate: Translate.Translator): Outcome {
    match GetSourceLang(doc)
    case Failure(e) => Outcome(doc, Some(e))
    case Success(src) =>
      match Translate.TranslateJsonSpec(Extraction(doc, src), Tag(lang), translate)
      case Failure(e) => Outcome(doc, Some(e))
      case Success(translated) =>
        var m := Assignment(translated, lang);
        MergeShape(Some(doc), m, 0);
        var merged := Merge(Some(doc), m);
        Outcome(merged.obj.value, if merged.ok then None else Some(MergeThrew))
  }

  /** A found document: `doc` is the document in memory, `stored` what the database holds. */
  class Item {
    var doc: Json
    var stored: Json

    constructor (d: Json)
      ensures doc == d && stored == d
    {
      doc := d;
      stored := d;
    }

    /**
     * The found branch of GET /:category/:id for the `language` query
     * `query`: refresh the document, save it, and answer transformItem of
     * it. What the pipeline throws is the answer instead, and nothing is
     * saved.
     */
    method Detail(query: Option<string>, translate: Translate.Translator) returns (r: Result<Json>)
      modifies this
      ensures var lang := RequestLanguage(query);
        var o := Refresh(old(doc), lang, translate);
        doc == o.doc &&
        (o.thrown.None? ==> stored == o.doc && r == Transform.TransformItemSpec(o.doc, Tag(lang))) &&
        (o.thrown.Some? ==> stored == old(stored) && r == Failure(o.thrown.value))
    {
      var language := RequestLanguage(query);
      var productData := ExtractValues(doc, language);
      if !Truthy(productData) || true {
        var sourceLang := GetSourceLang(doc);
        if sourceLang.Failure? {
          return Failure(sourceLang.error);
        }
        var sourceJson := ExtractValues(doc, sourceLang.value);
        var translatedJson := Translate.TranslateJson(sourceJson, Tag(language), translate);
        if translatedJson.Failure? {
          return Failure(translatedJson.error);
        }
        var res := AssignTranslatedValues(translatedJson.value, language);
        MergeShape(Some(doc), res, 0);
        var merged := MergeObject(Some(doc), res);
        doc := merged.obj.value;
        if !merged.ok {
          return Failure(MergeThrew);
        }
        stored := doc;
      }
      r := Transform.TransformItem(doc, Tag(language));
    }
  }

  /**
   * Whatever the translator answers, the pipeline changes only the `lang`
   * slots of the document: erasing them gives back the document it started
   * from, even when the merge stops part-way.
   */
  lemma RefreshKeepsOtherLanguages(doc: Json, lang: Language, translate: Translate.Translator)
    ensures Erase(Refresh(doc, lang, translate).doc, lang) == Erase(doc, lang)
  {
    match GetSourceLang(doc)
    case Failure(_) =>
    case Success(src) =>
      match Translate.TranslateJsonSpec(Extraction(doc, src), Tag(lang), translate)
      case Failure(_) =>
      case Success(translated) => WriteBackKeepsOtherLanguages(doc, translated, lang);
  }

  /** Before the merge nothing is written: a pipeline throwing anything but a merge error leaves the document as it was. */
  lemma RefreshThrowsEarly(doc: Json, lang: Language, translate: Translate.Translator)
    ensures var o := Refresh(doc, lang, translate);
      o.thrown.Some? && o.thrown.value != MergeThrew ==> o.doc == doc
    ensures var o := Refresh(doc, lang, translate);
      GetSourceLang(doc).Failure? ==> o == Outcome(doc, Some(TypeError))
  {
  }

  /** A translator that always fails. */
  function NoTranslator(): Translate.Translator {
    (text: string, target: string) => None
  }

  /**
   * The guard `!productData || true` never skips the pipeline: with a
   * failing translator the request fails whenever the source-language
   * extraction has a string to translate, however complete the document
   * already is in `lang`.
   */
  lemma AlwaysTranslates(doc: Json, lang: Language)
    requires GetSourceLang(doc).Success?
    requires |Translate.Leaves(Translate.Clone(Extraction(doc, GetSourceLang(doc).value)))| > 0
    ensures Refresh(doc, lang, NoTranslator()).thrown == Some(TranslationFailed)
  {
    var x := Extraction(doc, GetSourceLang(doc).value);
    assert !x.JNull?;
  }
}
