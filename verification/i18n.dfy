/**
 * Translation lookup: a dotted key such as "nav.blog" is split on '.', and the
 * segments are followed one by one through nested translation tables; a
 * missing step, or a value that JavaScript treats as false, gives the fallback.
 */
module I18n {
  import opened Wrappers
  import opened Strings

  /** A value in a translation table (the parsed locale files). */
  datatype Json =
    | JString(str: string)
    | JNumber(num: int)
    | JBool(flag: bool)
    | JNull
    | JObject(fields: map<string, Json>)

  /** JavaScript truthiness: empty strings, zero, false, null and a missing value are false. */
  predicate Truthy(v: Option<Json>)
  {
    match v
    case None => false
    case Some(JString(s)) => s != ""
    case Some(JNumber(n)) => n != 0
    case Some(JBool(b)) => b
    case Some(JNull) => false
    case Some(JObject(_)) => true
  }

  /** The index below `n` whose decimal spelling is `k`, as a string's own index properties are named. */
  function IndexKey(k: string, n: nat): (r: Option<nat>)
    ensures r.Some? ==> r.value < n && NatToString(r.value) == k
    ensures r.None? ==> forall i :: 0 <= i < n ==> NatToString(i) != k
    decreases n
  {
    if n == 0 then None
    else if NatToString(n - 1) == k then Some(n - 1)
    else IndexKey(k, n - 1)
  }

  /**
   * `obj?.[k]` on own properties: a table's entry for `k`; a string's `length`
   * and its one-character strings at the index keys "0", "1", ...; numbers,
   * booleans, null and a missing value have none.
   */
  function Member(node: Option<Json>, k: string): (r: Option<Json>)
    ensures node.Some? && node.value.JObject? ==>
              (r.Some? <==> k in node.value.fields) && (r.Some? ==> r.value == node.value.fields[k])
    ensures node.Some? && node.value.JString? && k == "length" ==> r == Some(JNumber(|node.value.str|))
    ensures node.Some? && node.value.JString? && k != "length" ==>
              (r.Some? <==> exists i :: 0 <= i < |node.value.str| && NatToString(i) == k)
    ensures node.Some? && node.value.JString? && k != "length" ==>
              forall i :: 0 <= i < |node.value.str| && NatToString(i) == k ==> r == Some(JString([node.value.str[i]]))
    ensures r.Some? ==> node.Some? && (node.value.JObject? || node.value.JString?)
  {
    match node
    case Some(JObject(m)) => if k in m then Some(m[k]) else None
    case Some(JString(str)) =>
      if k == "length" then Some(JNumber(|str|))
      else (match IndexKey(k, |str|)
            case Some(i) =>
              NatToStringInjective(i);
              assert i < |str| && NatToString(i) == k;
              Some(JString([str[i]]))
            case None => None)
    case _ => None
  }

  /** The `reduce` over the key's segments, starting from `node`. */
  function Walk(node: Option<Json>, path: seq<string>): Option<Json>
    decreases |path|
  {
    if |path| == 0 then node else Walk(Member(node, path[0]), path[1..])
  }

  /** Walking a concatenated path is walking the first part, then the rest from where it led. */
  lemma {:induction false} WalkAppend(node: Option<Json>, p: seq<string>, q: seq<string>)
    ensures Walk(node, p + q) == Walk(Walk(node, p), q)
    decreases |p|
  {
    if |p| > 0 {
      assert (p + q)[1..] == p[1..] + q;
      WalkAppend(Member(node, p[0]), p[1..], q);
    } else {
      assert p + q == q;
    }
  }

  /** Once the walk has nothing, it stays with nothing. */
  lemma {:induction false} WalkFromNothing(path: seq<string>)
    ensures Walk(None, path) == None
    decreases |path|
  {
    if |path| > 0 {
      WalkFromNothing(path[1..]);
    }
  }

  /** A segment missing at any depth makes the whole walk come back empty. */
  lemma MissingSegmentEndsWalk(node: Option<Json>, path: seq<string>, i: nat)
    requires i < |path|
    requires Member(Walk(node, path[..i]), path[i]).None?
    ensures Walk(node, path).None?
  {
    assert path == path[..i] + path[i..];
    WalkAppend(node, path[..i], path[i..]);
    WalkFromNothing(path[i + 1..]);
  }

  /**
   * `getTranslation(translations, key, fallback = key)`: the value the key's
   * segments lead to when it is truthy; otherwise the fallback, which is the key
   * itself when no fallback is passed.
   */
  function GetTranslation(table: Option<Json>, key: string, fallback: Option<string>): (r: Json)
    ensures Truthy(Walk(table, Split(key, '.'))) ==> Some(r) == Walk(table, Split(key, '.'))
    ensures !Truthy(Walk(table, Split(key, '.'))) ==> r == JString(fallback.GetOr(key))
    ensures fallback.None? ==> r.JString? ==> r.str != "" || key == ""
  {
    var found := Walk(table, Split(key, '.'));
    if Truthy(found) then found.value else JString(fallback.GetOr(key))
  }

  /** A key with a segment that is not there gives the fallback (the key itself by default). */
  lemma MissingKeyGivesFallback(table: Option<Json>, key: string, fallback: Option<string>, i: nat)
    requires i < |Split(key, '.')|
    requires Member(Walk(table, Split(key, '.')[..i]), Split(key, '.')[i]).None?
    ensures GetTranslation(table, key, fallback) == JString(fallback.GetOr(key))
  {
    MissingSegmentEndsWalk(table, Split(key, '.'), i);
  }

  /** A translation that exists but is the empty string is replaced by the fallback too. */
  lemma EmptyTranslationGivesFallback(table: Option<Json>, key: string, fallback: Option<string>)
    requires Walk(table, Split(key, '.')) == Some(JString(""))
    ensures GetTranslation(table, key, fallback) == JString(fallback.GetOr(key))
  {
  }

  /** A missing language table (an unknown language code) gives the fallback for every key. */
  lemma NoTableGivesFallback(key: string, fallback: Option<string>)
    ensures GetTranslation(None, key, fallback) == JString(fallback.GetOr(key))
  {
    WalkFromNothing(Split(key, '.'));
  }

  /** The walk for "a.b" is the walk for "b" from wherever "a" led. */
  lemma DottedKeyWalk(table: Option<Json>, a: string, b: string)
    ensures Walk(table, Split(a + "." + b, '.')) == Walk(Walk(table, Split(a, '.')), Split(b, '.'))
  {
    SplitAtSeparator(a, b, '.');
    WalkAppend(table, Split(a, '.'), Split(b, '.'));
  }

  /** A key without a dot is looked up directly in the table. */
  lemma UndottedKeyIsDirectLookup(table: Option<Json>, key: string)
    requires '.' !in key
    ensures Walk(table, Split(key, '.')) == Member(table, key)
  {
    SplitWithoutSeparator(key, '.');
  }

  /**
   * A key may run past a translation into the string itself: one more segment
   * reads its length or one of its characters, so "nav.blog.length" finds a
   * number and "nav.blog.0" the first letter.
   */
  lemma KeyCanRunIntoString(table: Option<Json>, key: string, str: string)
    requires Walk(table, Split(key, '.')) == Some(JString(str)) && str != ""
    ensures GetTranslation(table, key + ".length", None) == JNumber(|str|)
    ensures GetTranslation(table, key + ".0", None) == JString([str[0]])
  {
    assert key + ".length" == key + "." + "length";
    assert key + ".0" == key + "." + "0";
    OneMoreSegment(table, key, "length");
    OneMoreSegment(table, key, "0");
    var node := Some(JString(str));
    assert Member(node, "length") == Some(JNumber(|str|));
    assert NatToString(0) == "0";
    assert Member(node, "0") == Some(JString([str[0]]));
  }

  /** Following `key + "." + k` for a segment `k` without a dot is one lookup past where `key` led. */
  lemma OneMoreSegment(table: Option<Json>, key: string, k: string)
    requires '.' !in k
    ensures Walk(table, Split(key + "." + k, '.')) == Member(Walk(table, Split(key, '.')), k)
  {
    DottedKeyWalk(table, key, k);
    UndottedKeyIsDirectLookup(Walk(table, Split(key, '.')), k);
  }

  /** A language's display name and flag. */
  datatype Language = Language(name: string, flag: string)

  /** The selectable languages, by code. */
  const Languages: map<string, Language> := map[
    "en" := Language("English", "\U{1F1FA}\U{1F1F8}"),
    "vi" := Language("Ti\U{1EBF}ng Vi\U{1EC7}t", "\U{1F1FB}\U{1F1F3}")]

  const DefaultLanguage := "vi"

  /** The translation tables by language code, given the parsed English and Vietnamese locale files. */
  function Translations(en: Json, vi: Json): (t: map<string, Json>)
    ensures t.Keys == Languages.Keys
    ensures DefaultLanguage in t && t[DefaultLanguage] == vi
  {
    map["en" := en, "vi" := vi]
  }

  /** The only codes are "en" and "vi", and the default is one of them. */
  lemma LanguagesAreEnglishAndVietnamese()
    ensures Languages.Keys == {"en", "vi"}
    ensures DefaultLanguage in Languages && Languages[DefaultLanguage].name == "Ti\U{1EBF}ng Vi\U{1EC7}t"
  {
  }
}
