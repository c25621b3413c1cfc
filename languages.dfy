/** The three canonical language tags and the lenient code resolver (src/types/languages.ts). */
module Languages {
  import opened Wrappers

  /** `type Language = "en" | "nl" | "sv"` */
  datatype Language = Nl | En | Sv

  /** The tag a language is stored under in every `{nl, en, sv}` wrapper. */
  function Tag(l: Language): (t: string)
    ensures |t| == 2 && 'a' <= t[0] <= 'z' && 'a' <= t[1] <= 'z'
  {
    match l
    case Nl => "nl"
    case En => "en"
    case Sv => "sv"
  }

  lemma TagInjective(l: Language, m: Language)
    ensures Tag(l) == Tag(m) ==> l == m
  {
  }

  /** `SUPPORTED_LANGUAGES`, in its declared order. */
  const SupportedLanguages: seq<string> := ["nl", "en", "sv"]

  predicate IsSupported(k: string) {
    k in SupportedLanguages
  }

  /** The language a supported tag names. */
  function LanguageOfTag(k: string): (l: Language)
    requires IsSupported(k)
    ensures Tag(l) == k
  {
    if k == "nl" then Nl else if k == "en" then En else Sv
  }

  lemma SupportedIsTagged(k: string)
    ensures IsSupported(k) <==> exists l :: Tag(l) == k
  {
    if IsSupported(k) {
      assert Tag(LanguageOfTag(k)) == k;
    }
  }

  /** `CODE_LANG`: short codes (as they appear in query strings) to canonical languages. */
  const CodeLang: seq<(string, Language)> := [("nl", Nl), ("com", En), ("en", En), ("se", Sv)]

  /** `Object.keys(CODE_LANG).filter((key) => key === code)` */
  function MatchingCodes(keys: seq<string>, code: string): (r: seq<string>)
    ensures forall c :: c in r <==> c in keys && c == code
  {
    if keys == [] then []
    else (if keys[0] == code then [keys[0]] else []) + MatchingCodes(keys[1..], code)
  }

  function LookupCode(table: seq<(string, Language)>, code: string): Option<Language> {
    if table == [] then None
    else if table[0].0 == code then Some(table[0].1)
    else LookupCode(table[1..], code)
  }

  /**
   * `translateCodeToLang`: the first (only) table key equal to `code`, looked
   * up in the table, or "en" when there is none. Matching is exact and
   * case-sensitive, so "NL" and even the canonical tag "sv" fall back to "en".
   */
  function TranslateCodeToLang(code: string): (l: Language)
    ensures l == Nl <==> code == "nl"
    ensures l == Sv <==> code == "se"
    ensures l == En <==> code != "nl" && code != "se"
  {
    var keys := seq(|CodeLang|, i requires 0 <= i < |CodeLang| => CodeLang[i].0);
    assert keys == ["nl", "com", "en", "se"];
    var hits := MatchingCodes(keys, code);
    assert code in keys ==> code in hits;
    if |hits| > 0 then
      assert hits[0] in hits;
      LookupCode(CodeLang, hits[0]).GetOr(En)
    else En
  }

  lemma CodeTable()
    ensures TranslateCodeToLang("nl") == Nl
    ensures TranslateCodeToLang("com") == En
    ensures TranslateCodeToLang("en") == En
    ensures TranslateCodeToLang("se") == Sv
    ensures TranslateCodeToLang("sv") == En
    ensures TranslateCodeToLang("NL") == En
    ensures TranslateCodeToLang("") == En
  {
  }

  /** Every resolved language is one of `SUPPORTED_LANGUAGES`. */
  lemma ResolvedIsSupported(code: string)
    ensures IsSupported(Tag(TranslateCodeToLang(code)))
  {
  }

  /** `(req.query.language as string) || 'nl'`, then resolved: an absent or empty code means Dutch. */
  function RequestLanguage(query: Option<string>): (l: Language)
    ensures query.None? || query == Some("") ==> l == Nl
    ensures query.Some? && query.value != "" ==> l == TranslateCodeToLang(query.value)
  {
    TranslateCodeToLang(if query.Some? && query.value != "" then query.value else "nl")
  }
}
