/** The web front end's translation helper: the language chosen at start-up, the lookup with
    its fall-back to the key, loading a locale, and writing translations into the marked
    page elements. Local storage is a map field; the browser language, the outcome of
    fetching and decoding a locale file, and the marked elements are parameters. Locale
    values are strings. */
module I18n {
  import opened Wrappers
  import opened Seqs
  import opened Text

  /** A child node of a marked element: text, another element, or anything else (a comment). */
  datatype DomNode = TextNode(text: string) | ElementNode(tag: string) | OtherNode

  /** An element carrying a `data-i18n` key: its tag name, its placeholder ("" when it has
      none) and its child nodes. */
  datatype Marked = Marked(key: string, tagName: string, placeholder: string, childNodes: seq<DomNode>)

  predicate HasElementChild(nodes: seq<DomNode>) {
    exists i :: 0 <= i < |nodes| && nodes[i].ElementNode?
  }

  predicate IsNonBlankText(n: DomNode) {
    n.TextNode? && JsTrim(n.text) != ""
  }

  /** The position of the first text node that is not blank. */
  function FirstNonBlankText(nodes: seq<DomNode>): (r: Option<nat>)
  {
    FirstWhere(IsNonBlankText, nodes)
  }

  /** Setting `textContent`: every child is replaced by one text node, or by none for the
      empty string. */
  function SetTextContent(text: string): seq<DomNode> {
    if text == "" then [] else [TextNode(text)]
  }

  /** The replacement rule of `applyTranslations` for one element: an input with a non-empty
      placeholder gets the translation as placeholder; an element without element children
      gets it as its whole text; any other element has only its first non-blank text node
      replaced, if it has one. */
  function Translated(e: Marked, translation: string): (r: Marked)
    ensures r.key == e.key && r.tagName == e.tagName
    ensures e.tagName == "INPUT" && e.placeholder != "" ==> r == e.(placeholder := translation)
    ensures !(e.tagName == "INPUT" && e.placeholder != "") && !HasElementChild(e.childNodes) ==>
      r == e.(childNodes := SetTextContent(translation))
  {
    if e.tagName == "INPUT" && e.placeholder != "" then e.(placeholder := translation)
    else if !HasElementChild(e.childNodes) then e.(childNodes := SetTextContent(translation))
    else match FirstNonBlankText(e.childNodes)
      case None => e
      case Some(k) => e.(childNodes := e.childNodes[k := TextNode(translation)])
  }

  /** An element with element children keeps all its nodes but the first non-blank text
      node, which alone receives the translation; without such a node nothing changes. */
  lemma OnlyFirstTextReplaced(e: Marked, translation: string)
    requires !(e.tagName == "INPUT" && e.placeholder != "") && HasElementChild(e.childNodes)
    ensures var r := Translated(e, translation);
      && r.placeholder == e.placeholder
      && |r.childNodes| == |e.childNodes|
      && (forall j :: 0 <= j < |e.childNodes| && Some(j) != FirstNonBlankText(e.childNodes) ==>
            r.childNodes[j] == e.childNodes[j])
      && (FirstNonBlankText(e.childNodes).Some? ==>
            r.childNodes[FirstNonBlankText(e.childNodes).value] == TextNode(translation))
  {
  }

  /** The start-up language: the stored 'lang' when it is set and not empty, otherwise 'tr'
      for a browser language beginning with "tr", otherwise 'en'. */
  function InitialLanguage(storage: map<string, string>, navigatorLanguage: string): (r: string)
    ensures r != ""
    ensures "lang" in storage && storage["lang"] != "" ==> r == storage["lang"]
    ensures !("lang" in storage && storage["lang"] != "") ==> (r == "tr" <==> StartsWith(navigatorLanguage, "tr"))
  {
    if "lang" in storage && storage["lang"] != "" then storage["lang"]
    else if StartsWith(navigatorLanguage, "tr") then "tr" else "en"
  }

  /** The lookup: the current locale's value for `key` when the locale is loaded and the
      value is not empty, otherwise the key itself. */
  function Lookup(locales: map<string, map<string, string>>, lang: string, key: string): (r: string)
    ensures r != key ==> lang in locales && key in locales[lang] && r == locales[lang][key] != ""
    ensures lang in locales && key in locales[lang] && locales[lang][key] != "" ==> r == locales[lang][key]
    ensures lang !in locales || key !in locales[lang] || locales[lang][key] == "" ==> r == key
  {
    if lang in locales && key in locales[lang] && locales[lang][key] != "" then locales[lang][key] else key
  }

  class Translator {
    var locales: map<string, map<string, string>>
    var currentLang: string
    var storage: map<string, string>
    /** The details of the `langChanged` events sent so far, oldest first. */
    var dispatched: seq<string>

    /** No locale loaded; the language picked from storage and the browser language. */
    constructor (storage: map<string, string>, navigatorLanguage: string)
      ensures locales == map[] && this.storage == storage && dispatched == []
      ensures currentLang == InitialLanguage(storage, navigatorLanguage)
    {
      locales := map[];
      currentLang := InitialLanguage(storage, navigatorLanguage);
      this.storage := storage;
      dispatched := [];
    }

    /** `t`. */
    function T(key: string): (r: string)
      reads this
      ensures r == key || (currentLang in locales && key in locales[currentLang] && r == locales[currentLang][key])
    {
      Lookup(locales, currentLang, key)
    }

    /** `loadLang`: `fetched` is the decoded locale file, or None when fetching or decoding
        failed. On success the locale is stored, becomes current and is remembered in
        local storage; on failure nothing changes. */
    method LoadLang(lang: string, fetched: Option<map<string, string>>)
      modifies this
      ensures fetched.Some? ==> (locales == old(locales)[lang := fetched.value]
        && currentLang == lang && storage == old(storage)["lang" := lang])
      ensures fetched.None? ==> locales == old(locales) && currentLang == old(currentLang) && storage == old(storage)
      ensures dispatched == old(dispatched)
    {
      if fetched.Some? {
        locales := locales[lang := fetched.value];
        currentLang := lang;
        storage := storage["lang" := lang];
      }
    }

    /** `applyTranslations`: each marked element, in document order, receives the
        translation of its key by the replacement rule. */
    method ApplyTranslations(elements: array<Marked>)
      modifies elements
      ensures forall i :: 0 <= i < elements.Length ==>
        elements[i] == Translated(old(elements[i]), T(old(elements[i]).key))
    {
      var i := 0;
      while i < elements.Length
        invariant 0 <= i <= elements.Length
        invariant forall j :: 0 <= j < i ==> elements[j] == Translated(old(elements[j]), T(old(elements[j]).key))
        invariant forall j :: i <= j < elements.Length ==> elements[j] == old(elements[j])
      {
        var r := TranslateElement(elements[i], T(elements[i].key));
        elements[i] := r;
        i := i + 1;
      }
    }

    /** The body of the `forEach` of `applyTranslations`, for one element. */
    static method TranslateElement(e: Marked, translation: string) returns (r: Marked)
      ensures r == Translated(e, translation)
    {
      r := e;
      if e.tagName == "INPUT" && e.placeholder != "" {
        r := e.(placeholder := translation);
      } else if !HasElementChild(e.childNodes) {
        r := e.(childNodes := SetTextContent(translation));
      } else {
        var k := FindFirstNonBlankText(e.childNodes);
        if k.Some? {
          r := e.(childNodes := e.childNodes[k.value := TextNode(translation)]);
        }
      }
    }

    /** The inner loop of `applyTranslations`: scan the child nodes and stop at the first
        non-blank text node. */
    static method FindFirstNonBlankText(nodes: seq<DomNode>) returns (k: Option<nat>)
      ensures k == FirstNonBlankText(nodes)
    {
      var j := 0;
      k := None;
      while j < |nodes|
        invariant 0 <= j <= |nodes|
        invariant forall m :: 0 <= m < j ==> !IsNonBlankText(nodes[m])
        invariant k == None
      {
        if nodes[j].TextNode? && JsTrim(nodes[j].text) != "" {
          k := Some(j);
          FirstNonBlankAt(nodes, j);
          return;
        }
        j := j + 1;
      }
      FirstNonBlankNone(nodes);
    }

    /** `init`: load the start-up language, then translate the page. */
    method Init(fetched: Option<map<string, string>>, elements: array<Marked>)
      modifies this, elements
      ensures currentLang == old(currentLang)
      ensures fetched.Some? ==> (locales == old(locales)[old(currentLang) := fetched.value]
        && storage == old(storage)["lang" := old(currentLang)])
      ensures fetched.None? ==> locales == old(locales) && storage == old(storage)
      ensures dispatched == old(dispatched)
      ensures forall i :: 0 <= i < elements.Length ==>
        elements[i] == Translated(old(elements[i]), T(old(elements[i]).key))
    {
      LoadLang(currentLang, fetched);
      ApplyTranslations(elements);
    }

    /** `setLanguage`: load the language, translate the page, then announce the change. */
    method SetLanguage(lang: string, fetched: Option<map<string, string>>, elements: array<Marked>)
      modifies this, elements
      ensures fetched.Some? ==> (currentLang == lang && locales == old(locales)[lang := fetched.value]
        && storage == old(storage)["lang" := lang])
      ensures fetched.None? ==> locales == old(locales) && currentLang == old(currentLang) && storage == old(storage)
      ensures forall i :: 0 <= i < elements.Length ==>
        elements[i] == Translated(old(elements[i]), T(old(elements[i]).key))
      ensures dispatched == old(dispatched) + [lang]
    {
      LoadLang(lang, fetched);
      ApplyTranslations(elements);
      dispatched := dispatched + [lang];
    }
  }

  lemma FirstNonBlankAt(nodes: seq<DomNode>, j: nat)
    requires j < |nodes| && IsNonBlankText(nodes[j])
    requires forall m :: 0 <= m < j ==> !IsNonBlankText(nodes[m])
    ensures FirstNonBlankText(nodes) == Some(j)
  {
  }

  lemma FirstNonBlankNone(nodes: seq<DomNode>)
    requires forall m :: 0 <= m < |nodes| ==> !IsNonBlankText(nodes[m])
    ensures FirstNonBlankText(nodes) == None
  {
  }

  /** A language loaded successfully is the one a later start-up picks, whatever the browser
      language, as long as it is not the empty string. */
  lemma StoredLanguageRestored(storage: map<string, string>, lang: string, navigatorLanguage: string)
    requires lang != ""
    ensures InitialLanguage(storage["lang" := lang], navigatorLanguage) == lang
  {
  }

  /** The lookup in a freshly loaded locale: its non-empty value, otherwise the key. */
  lemma LookupAfterLoad(locales: map<string, map<string, string>>, lang: string, locale: map<string, string>, key: string)
    ensures Lookup(locales[lang := locale], lang, key) == (if key in locale && locale[key] != "" then locale[key] else key)
  {
  }

  /** After loading a locale, a key it translates to a non-empty value is translated, and
      every other key comes back unchanged. */
  method LoadThenLookup(tr: Translator, lang: string, locale: map<string, string>, key: string) returns (r: string)
    modifies tr
    ensures key in locale && locale[key] != "" ==> r == locale[key]
    ensures !(key in locale && locale[key] != "") ==> r == key
  {
    tr.LoadLang(lang, Some(locale));
    r := tr.T(key);
  }
}
