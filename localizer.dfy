// Localizers: per-language lookup caches with a NOT_FOUND sentinel,
// default-key insertion, plural forms by first-match rewrite rules, and the
// registry that resolves a list of preferred languages to a localizer.

module Localization {
  import opened Wrappers
  import JavaInt
  import ArrayUtilities

  /** Objects held by a localizer's cache. Exception tables map strings to strings. */
  datatype Value = Text(text: string) | Table(entries: map<string, string>) | Other(id: nat)

  /** A cache slot: the shared NOT_FOUND sentinel or a real value. */
  datatype Entry = NotFound | Val(value: Value)

  type Cache = map<string, Entry>

  /** What a lookup hands back: a value, null, or the result of invoking a localizer method. */
  datatype Answer = Found(value: Value) | Absent | Invoked(methodKey: string)

  /** Static configuration every localizer consults. */
  datatype Settings = Settings(defaultLanguage: string, fallbackToDefaultLanguage: bool, operatorNames: set<string>)

  /** The text of the sentinel, which loaded strings can also equal. */
  const NotFoundText: string := "**NOT_FOUND**"

  /** The cache key of the plural exception table. */
  const ExceptionsKey: string := "localizerExceptions"

  /** Languages whose localizers are built without plural forms. */
  const LanguagesWithoutPluralForm: seq<string> := ["Japanese"]

  datatype LocalizerError = ClassCast

  /** The language of the localizer handed out while localization is disabled. */
  const NonlocalizedLanguage: string := "Nonlocalized"

  // ---------------------------------------------------------------------------
  // The lookup of one key
  // ---------------------------------------------------------------------------

  /** The method name a key starting with '@' denotes: up to the first '.', or the whole rest. */
  function MethodKey(key: string): (r: Option<string>)
    ensures r.Some? <==> |key| > 0 && key[0] == '@'
    ensures r.Some? ==> |r.value| < |key| && r.value == key[1..1 + |r.value|] && '.' !in r.value
    ensures r.Some? ==> 1 + |r.value| == |key| || key[1 + |r.value|] == '.'
  {
    if |key| > 0 && key[0] == '@' then
      var dot := ArrayUtilities.IndexOf(key, '.');
      var end := if dot.Some? && dot.value > 0 then dot.value else |key|;
      Some(key[1..end])
    else None
  }

  /** The method a key invokes instead of being looked up: '@' keys that are not collection operators. */
  function Invocation(s: Settings, key: string): Option<string> {
    match MethodKey(key)
    case Some(m) => if m !in s.operatorNames then Some(m) else None
    case None => None
  }

  function Stored(e: Entry): (r: Answer)
    ensures r.Absent? <==> e.NotFound?
    ensures !r.Invoked?
  {
    match e
    case NotFound => Absent
    case Val(v) => Found(v)
  }

  /** The slot that remembers an answer: the value, or the sentinel for null. */
  function EntryFor(a: Answer): Entry {
    if a.Found? then Val(a.value) else NotFound
  }

  /** The answer a cache alone gives: the stored value, or null when missing. */
  function CacheAnswer(cache: Cache, key: string): (r: Answer)
    ensures !r.Invoked?
    ensures r.Found? <==> key in cache && cache[key].Val?
  {
    if key in cache then Stored(cache[key]) else Absent
  }

  /** Whether a miss in a localizer for `language` asks the default language's localizer. */
  predicate Falls(s: Settings, language: string) {
    s.fallbackToDefaultLanguage && s.defaultLanguage != language
  }

  /** Whether a lookup of `key` misses the cache and goes on to the fallback or the sentinel. */
  predicate Misses(s: Settings, cache: Cache, key: Option<string>) {
    key.Some? && Invocation(s, key.value).None? && key.value !in cache
  }

  /** The answer of a lookup in a localizer for `language` with cache `cache`, the default localizer's cache being `defaults`. */
  function Resolve(s: Settings, language: string, cache: Cache, defaults: Cache, key: Option<string>): (r: Answer)
    ensures key.None? ==> r.Absent?
    ensures r.Invoked? <==> key.Some? && Invocation(s, key.value).Some?
    ensures !Misses(s, cache, key) && key.Some? && !r.Invoked? ==> r == Stored(cache[key.value])
    ensures Misses(s, cache, key) && !Falls(s, language) ==> r.Absent?
    ensures Misses(s, cache, key) && Falls(s, language) ==> r == CacheAnswer(defaults, key.value)
  {
    match key
    case None => Absent
    case Some(k) =>
      match Invocation(s, k)
      case Some(m) => Invoked(m)
      case None =>
        if k in cache then Stored(cache[k])
        else if Falls(s, language) then CacheAnswer(defaults, k)
        else Absent
  }

  /** The cache of the localizer after that lookup: a miss remembers the answer, null as the sentinel. */
  function CacheAfter(s: Settings, language: string, cache: Cache, defaults: Cache, key: Option<string>): (c: Cache)
    ensures !Misses(s, cache, key) ==> c == cache
    ensures Misses(s, cache, key) ==> c == cache[key.value := EntryFor(Resolve(s, language, cache, defaults, key))]
  {
    if Misses(s, cache, key) then
      var k := key.value;
      cache[k := if Falls(s, language) then EntryFor(CacheAnswer(defaults, k)) else NotFound]
    else cache
  }

  /** The default localizer's cache after that lookup: it remembers its own miss when it was asked. */
  function DefaultsAfter(s: Settings, language: string, cache: Cache, defaults: Cache, key: Option<string>): (c: Cache)
    ensures c.Keys >= defaults.Keys
    ensures forall k :: k in defaults ==> c[k] == defaults[k]
    ensures Misses(s, cache, key) && Falls(s, language) ==> key.value in c
  {
    if Misses(s, cache, key) && Falls(s, language) && key.value !in defaults then
      defaults[key.value := NotFound]
    else defaults
  }

  /** After a lookup the answer is exactly what the localizer's cache now holds for the key. */
  lemma LookupRemembered(s: Settings, language: string, cache: Cache, defaults: Cache, key: Option<string>)
    requires key.Some? && Invocation(s, key.value).None?
    ensures var c := CacheAfter(s, language, cache, defaults, key);
      key.value in c && Resolve(s, language, cache, defaults, key) == Stored(c[key.value])
  {
    var a := Resolve(s, language, cache, defaults, key);
    if Misses(s, cache, key) {
      assert !a.Invoked?;
      assert Stored(EntryFor(a)) == a;
    }
  }

  /** Repeating a lookup answers the same and changes neither cache: a stored NOT_FOUND keeps yielding null. */
  lemma LookupStable(s: Settings, language: string, cache: Cache, defaults: Cache, key: Option<string>)
    ensures var c := CacheAfter(s, language, cache, defaults, key);
      var d := DefaultsAfter(s, language, cache, defaults, key);
      Resolve(s, language, c, d, key) == Resolve(s, language, cache, defaults, key)
      && CacheAfter(s, language, c, d, key) == c
      && DefaultsAfter(s, language, c, d, key) == d
  {
    if key.Some? && Invocation(s, key.value).None? {
      LookupRemembered(s, language, cache, defaults, key);
    }
  }

  /** Whether the answer of a lookup counts as missing for the default-inserting lookup. */
  predicate Missing(a: Answer) {
    a.Absent? || a == Found(Text(NotFoundText))
  }

  /** The answer of the default-inserting lookup: a missing value is replaced by the key itself. */
  function Defaulted(s: Settings, language: string, cache: Cache, defaults: Cache, key: Option<string>): (r: Answer)
    ensures key.None? <==> r.Absent?
    ensures key.Some? && Missing(Resolve(s, language, cache, defaults, key)) ==> r == Found(Text(key.value))
    ensures !Missing(Resolve(s, language, cache, defaults, key)) ==> r == Resolve(s, language, cache, defaults, key)
  {
    var a := Resolve(s, language, cache, defaults, key);
    if key.Some? && Missing(a) then Found(Text(key.value)) else a
  }

  /** The cache after the default-inserting lookup: a missing key is bound to itself. */
  function DefaultedCache(s: Settings, language: string, cache: Cache, defaults: Cache, key: Option<string>): Cache {
    var c := CacheAfter(s, language, cache, defaults, key);
    if key.Some? && Missing(Resolve(s, language, cache, defaults, key)) then c[key.value := Val(Text(key.value))] else c
  }

  /** After a default-inserting lookup, a plain lookup of the same key gives the same, non-null answer. */
  lemma DefaultedStable(s: Settings, language: string, cache: Cache, defaults: Cache, key: Option<string>)
    requires key.Some?
    ensures var c := DefaultedCache(s, language, cache, defaults, key);
      var d := DefaultsAfter(s, language, cache, defaults, key);
      Resolve(s, language, c, d, key) == Defaulted(s, language, cache, defaults, key) != Absent
  {
    var a := Resolve(s, language, cache, defaults, key);
    if Invocation(s, key.value).None? {
      LookupRemembered(s, language, cache, defaults, key);
    }
  }

  // ---------------------------------------------------------------------------
  // How far a miss falls back
  // ---------------------------------------------------------------------------

  /** The language of the localizer `defaultLocalizer()` hands out: "Nonlocalized" while localization is disabled. */
  function DefaultLocalizerLanguage(s: Settings, enabled: bool): string {
    if enabled then s.defaultLanguage else NonlocalizedLanguage
  }

  /**
   * How many further localizers a key that no cache holds is looked up in, starting in a
   * localizer for `language`, when every miss that falls back asks a new localizer for
   * `asked`; None when `fuel` steps do not reach a localizer that stops.
   */
  function MissChain(s: Settings, asked: string, language: string, fuel: nat): (r: Option<nat>)
    decreases fuel
    ensures r == Some(0) <==> !Falls(s, language)
    ensures r.Some? ==> r.value <= fuel
  {
    if !Falls(s, language) then Some(0)
    else if fuel == 0 then None
    else
      match MissChain(s, asked, asked, fuel - 1)
      case Some(n) => Some(n + 1)
      case None => None
  }

  /**
   * As written, with localization disabled and falling back on, a miss never ends: the
   * localizer asked is another "Nonlocalized" one, which misses and falls back again.
   */
  lemma {:induction false} DisabledFallbackNeverEnds(s: Settings, fuel: nat)
    requires Falls(s, NonlocalizedLanguage)
    ensures MissChain(s, DefaultLocalizerLanguage(s, false), NonlocalizedLanguage, fuel).None?
  {
    if fuel > 0 {
      DisabledFallbackNeverEnds(s, fuel - 1);
    }
  }

  /** A concrete configuration: default language "English", falling back on, localization disabled. */
  lemma DisabledFallbackExample(fuel: nat)
    ensures MissChain(Settings("English", true, {}), NonlocalizedLanguage, NonlocalizedLanguage, fuel).None?
  {
    DisabledFallbackNeverEnds(Settings("English", true, {}), fuel);
  }

  /**
   * Asking the default language's localizer, as `LocalizedValueForKey` does, a miss ends
   * after at most one fallback, whatever the language it started in.
   */
  lemma FallbackEnds(s: Settings, language: string, fuel: nat)
    requires fuel >= 1
    ensures MissChain(s, s.defaultLanguage, language, fuel) == Some(if Falls(s, language) then 1 else 0)
  {
  }

  // ---------------------------------------------------------------------------
  // Bulk insertion with exception-table merging
  // ---------------------------------------------------------------------------

  function AsTable(e: Option<Value>): Option<map<string, string>> {
    if e.Some? && e.value.Table? then Some(e.value.entries) else None
  }

  function CachedValue(cache: Cache, key: string): Option<Value> {
    if key in cache && cache[key].Val? then Some(cache[key].value) else None
  }

  function DictValue(dict: map<string, Value>, key: string): Option<Value> {
    if key in dict then Some(dict[key]) else None
  }

  /** The dictionary actually added: when both sides hold an exception table, the tables are merged, new entries winning. */
  function MergedEntries(cache: Cache, dict: map<string, Value>): map<string, Value> {
    match (AsTable(CachedValue(cache, ExceptionsKey)), AsTable(DictValue(dict, ExceptionsKey)))
    case (Some(current), Some(incoming)) => dict[ExceptionsKey := Table(current + incoming)]
    case _ => dict
  }

  function Added(cache: Cache, dict: map<string, Value>): Cache {
    var merged := MergedEntries(cache, dict);
    cache + map k | k in merged :: Val(merged[k])
  }

  /** Adding entries overrides every key of the dictionary, keeps the rest, and merges exception tables so old exceptions survive unless redefined. */
  lemma AddedSpec(cache: Cache, dict: map<string, Value>)
    ensures var c := Added(cache, dict);
      c.Keys == cache.Keys + dict.Keys
      && (forall k :: k in cache && k !in dict ==> c[k] == cache[k])
      && (forall k :: k in dict && k != ExceptionsKey ==> c[k] == Val(dict[k]))
  {
    var merged := MergedEntries(cache, dict);
    assert merged.Keys == dict.Keys;
    forall k | k in dict && k != ExceptionsKey
      ensures Added(cache, dict)[k] == Val(dict[k])
    {
      assert merged[k] == dict[k];
    }
  }

  /** The merged exception table holds every old exception not redefined, and every new one. */
  lemma ExceptionsMerged(cache: Cache, dict: map<string, Value>, current: map<string, string>, incoming: map<string, string>)
    requires ExceptionsKey in cache && cache[ExceptionsKey] == Val(Table(current))
    requires ExceptionsKey in dict && dict[ExceptionsKey] == Table(incoming)
    ensures var c := Added(cache, dict);
      ExceptionsKey in c && c[ExceptionsKey].Val? && c[ExceptionsKey].value.Table?
      && c[ExceptionsKey].value.entries.Keys == current.Keys + incoming.Keys
      && (forall n :: n in incoming ==> c[ExceptionsKey].value.entries[n] == incoming[n])
      && (forall n :: n in current && n !in incoming ==> c[ExceptionsKey].value.entries[n] == current[n])
  {
    assert MergedEntries(cache, dict)[ExceptionsKey] == Table(current + incoming);
  }

  // ---------------------------------------------------------------------------
  // Plural forms
  // ---------------------------------------------------------------------------

  /** A rewrite rule: a whole-string pattern and the rewrite its first match performs. */
  datatype Rule = Rule(matches: string -> bool, replace: string -> string)

  /** The first rule at or after `i` whose pattern matches `s`. */
  function FirstMatch(rules: seq<Rule>, s: string, i: nat): (r: Option<nat>)
    decreases |rules| - i
    ensures r.Some? ==>
      i <= r.value < |rules| && rules[r.value].matches(s) && forall j :: i <= j < r.value ==> !rules[j].matches(s)
    ensures r.None? ==> forall j :: i <= j < |rules| ==> !rules[j].matches(s)
  {
    if i >= |rules| then None
    else if rules[i].matches(s) then Some(i)
    else FirstMatch(rules, s, i + 1)
  }

  /** The string after applying the rules: the first matching rule rewrites it, then the case of the input is carried over. */
  function RulesApplied(str: Option<string>, rules: seq<Rule>, matchCase: (string, string) -> string): Option<string> {
    match str
    case None => None
    case Some(s) =>
      match FirstMatch(rules, s, 0)
      case None => str
      case Some(i) => Some(matchCase(s, rules[i].replace(s)))
  }

  /** At most one rule applies: the first that matches. Null, or no matching rule, leaves the input unchanged. */
  lemma {:induction false} RulesAppliedSpec(str: Option<string>, rules: seq<Rule>, matchCase: (string, string) -> string)
    ensures str.None? ==> RulesApplied(str, rules, matchCase).None?
    ensures str.Some? && (forall j :: 0 <= j < |rules| ==> !rules[j].matches(str.value)) ==>
      RulesApplied(str, rules, matchCase) == str
    ensures forall i ::
      (0 <= i < |rules| && str.Some? && rules[i].matches(str.value) && forall j :: 0 <= j < i ==> !rules[j].matches(str.value)) ==>
      RulesApplied(str, rules, matchCase) == Some(matchCase(str.value, rules[i].replace(str.value)))
  {
    if str.Some? {
      var s := str.value;
      forall i | 0 <= i < |rules| && rules[i].matches(s) && (forall j :: 0 <= j < i ==> !rules[j].matches(s))
        ensures FirstMatch(rules, s, 0) == Some(i)
      {
      }
    }
  }

  /** The plural of a string: unchanged for a count of one or minus one, otherwise the rules applied. */
  function Plurified(str: Option<string>, howMany: int, rules: seq<Rule>, matchCase: (string, string) -> string): (r: Option<string>)
    ensures howMany == 1 || howMany == -1 ==> r == str
    ensures str.None? ==> r.None?
  {
    if howMany == 1 || howMany == -1 then str else RulesApplied(str, rules, matchCase)
  }

  /** The applied rules: a first-match loop that stops after one conversion. */
  method ApplyRules(str: Option<string>, rules: seq<Rule>, matchCase: (string, string) -> string) returns (result: Option<string>)
    ensures result == RulesApplied(str, rules, matchCase)
  {
    result := str;
    if str.Some? {
      var s := str.value;
      var converted := false;
      var i := 0;
      while !converted && i < |rules|
        invariant 0 <= i <= |rules|
        invariant !converted ==> result == str && FirstMatch(rules, s, 0) == FirstMatch(rules, s, i)
        invariant converted ==> 0 < i && FirstMatch(rules, s, 0) == Some(i - 1) && result == Some(rules[i - 1].replace(s))
      {
        if rules[i].matches(s) {
          result := Some(rules[i].replace(s));
          converted := true;
        }
        i := i + 1;
      }
      if converted {
        result := Some(matchCase(s, result.value));
      }
    }
  }

  /** The exception a table holds for `name` and `count`: "name.count" before "name". */
  function PluralException(table: map<string, string>, name: string, count: int): (r: Option<string>)
    ensures r.Some? <==> name + "." + JavaInt.ToString(count) in table || name in table
    ensures name + "." + JavaInt.ToString(count) in table ==> r == Some(table[name + "." + JavaInt.ToString(count)])
    ensures name + "." + JavaInt.ToString(count) !in table && name in table ==> r == Some(table[name])
  {
    var specific := name + "." + JavaInt.ToString(count);
    if specific in table then Some(table[specific])
    else if name in table then Some(table[name])
    else None
  }

  /** The plural string given what the exception lookup answered: an exception wins over the rules; a non-table raises a cast error. */
  function PluralChoice(exceptions: Answer, name: string, count: int, rules: seq<Rule>, matchCase: (string, string) -> string): (r: Result<Option<string>, LocalizerError>)
    ensures r.Err? <==> exceptions.Found? && !exceptions.value.Table?
    ensures exceptions.Found? && exceptions.value.Table? && PluralException(exceptions.value.entries, name, count).Some? ==>
      r == Ok(PluralException(exceptions.value.entries, name, count))
    ensures !exceptions.Found? || (exceptions.value.Table? && PluralException(exceptions.value.entries, name, count).None?) ==>
      r == Ok(Plurified(Some(name), count, rules, matchCase))
  {
    match exceptions
    case Found(Table(entries)) =>
      var e := PluralException(entries, name, count);
      if e.Some? then Ok(e) else Ok(Plurified(Some(name), count, rules, matchCase))
    case Found(_) => Err(ClassCast)
    case _ => Ok(Plurified(Some(name), count, rules, matchCase))
  }

  // ---------------------------------------------------------------------------
  // One localizer
  // ---------------------------------------------------------------------------

  class Localizer {
    const language: string
    /** False for localizers of languages without plural forms. */
    const pluralForm: bool
    var cache: Cache
    var createdKeys: map<string, Value>
    /** The plural rules in their iteration order. */
    var plurifyRules: seq<Rule>

    constructor(language: string, pluralForm: bool)
      ensures this.language == language && this.pluralForm == pluralForm
      ensures cache == map[] && createdKeys == map[] && plurifyRules == []
    {
      this.language := language;
      this.pluralForm := pluralForm;
      cache := map[];
      createdKeys := map[];
      plurifyRules := [];
    }

    /** Stores a value under a key; a null key or value changes nothing. */
    method SetCacheValueForKey(value: Option<Value>, key: Option<string>)
      modifies this`cache
      ensures cache == if value.Some? && key.Some? then old(cache)[key.value := Val(value.value)] else old(cache)
    {
      if key.Some? && value.Some? {
        cache := cache[key.value := Val(value.value)];
      }
    }

    /** Records a key inserted with a default value; null key or value changes nothing. */
    method AddToCreatedKeys(value: Option<Value>, key: Option<string>)
      modifies this`createdKeys
      ensures createdKeys == if value.Some? && key.Some? then old(createdKeys)[key.value := value.value] else old(createdKeys)
    {
      if key.Some? && value.Some? {
        createdKeys := createdKeys[key.value := value.value];
      }
    }

    /**
     * Looks a key up. '@' keys naming a method invoke it; otherwise a cached
     * value (or null for the sentinel) is returned, and a miss asks the default
     * localizer when falling back applies and remembers its answer.
     */
    method LocalizedValueForKey(key: Option<string>, s: Settings, defaults: Localizer) returns (r: Answer)
      requires defaults.language == s.defaultLanguage
      modifies this`cache, defaults`cache
      decreases if language == s.defaultLanguage then 0 else 1
      ensures r == Resolve(s, language, old(cache), old(defaults.cache), key)
      ensures cache == CacheAfter(s, language, old(cache), old(defaults.cache), key)
      ensures defaults != this ==> defaults.cache == DefaultsAfter(s, language, old(cache), old(defaults.cache), key)
    {
      if key.Some? {
        var methodKey := Invocation(s, key.value);
        if methodKey.Some? {
          return Invoked(methodKey.value);
        }
      }
      if key.None? {
        return Absent;
      }
      var k := key.value;
      if k in cache {
        return Stored(cache[k]);
      }
      if s.fallbackToDefaultLanguage && s.defaultLanguage != language {
        var inDefault := defaults.LocalizedValueForKey(key, s, defaults);
        cache := cache[k := EntryFor(inDefault)];
        return inDefault;
      }
      cache := cache[k := NotFound];
      return Absent;
    }

    /** Looks a key up, binding a missing key to itself in the cache and among the created keys. */
    method LocalizedValueForKeyWithDefault(key: Option<string>, s: Settings, defaults: Localizer) returns (r: Answer)
      requires defaults.language == s.defaultLanguage
      modifies this`cache, this`createdKeys, defaults`cache
      ensures r == Defaulted(s, language, old(cache), old(defaults.cache), key)
      ensures cache == DefaultedCache(s, language, old(cache), old(defaults.cache), key)
      ensures defaults != this ==> defaults.cache == DefaultsAfter(s, language, old(cache), old(defaults.cache), key)
      ensures createdKeys == if key.Some? && Missing(Resolve(s, language, old(cache), old(defaults.cache), key))
        then old(createdKeys)[key.value := Text(key.value)] else old(createdKeys)
    {
      if key.None? {
        return Absent;
      }
      r := LocalizedValueForKey(key, s, defaults);
      if r.Absent? || r == Found(Text(NotFoundText)) {
        SetCacheValueForKey(Some(Text(key.value)), key);
        AddToCreatedKeys(Some(Text(key.value)), key);
        r := Found(Text(key.value));
      }
    }

    /** Adds a dictionary to the cache, merging the exception tables when both sides have one. */
    method AddEntriesToCache(dict: map<string, Value>)
      modifies this`cache
      ensures cache == Added(old(cache), dict)
    {
      var entries := dict;
      var current := AsTable(CachedValue(cache, ExceptionsKey));
      var incoming := AsTable(DictValue(dict, ExceptionsKey));
      if current.Some? && incoming.Some? {
        entries := dict[ExceptionsKey := Table(current.value + incoming.value)];
      }
      cache := cache + map k | k in entries :: Val(entries[k]);
    }

    /** The plural of a string by this localizer's rules. */
    method Plurify(str: Option<string>, howMany: int, matchCase: (string, string) -> string) returns (r: Option<string>)
      ensures r == Plurified(str, howMany, plurifyRules, matchCase)
    {
      if howMany == 1 || howMany == -1 {
        r := str;
      } else {
        r := ApplyRules(str, plurifyRules, matchCase);
      }
    }

    /** The plural of a name: an exception from the exception table when one exists, otherwise the rules. */
    method PlurifiedString(name: Option<string>, count: int, s: Settings, defaults: Localizer, matchCase: (string, string) -> string)
      returns (r: Result<Option<string>, LocalizerError>)
      requires defaults.language == s.defaultLanguage
      modifies this`cache, defaults`cache
      ensures name.None? ==> r == Ok(None) && cache == old(cache) && defaults.cache == old(defaults.cache)
      ensures name.Some? ==>
        r == PluralChoice(Resolve(s, language, old(cache), old(defaults.cache), Some(ExceptionsKey)), name.value, count, plurifyRules, matchCase)
        && cache == CacheAfter(s, language, old(cache), old(defaults.cache), Some(ExceptionsKey))
      ensures name.Some? && defaults != this ==>
        defaults.cache == DefaultsAfter(s, language, old(cache), old(defaults.cache), Some(ExceptionsKey))
    {
      if name.Some? {
        var exceptions := LocalizedValueForKey(Some(ExceptionsKey), s, defaults);
        match exceptions {
          case Found(Table(entries)) =>
            var e := PluralException(entries, name.value, count);
            if e.Some? {
              return Ok(e);
            }
          case Found(_) =>
            return Err(ClassCast);
          case _ =>
        }
      }
      var p := Plurify(name, count, matchCase);
      return Ok(p);
    }
  }

  // ---------------------------------------------------------------------------
  // The registry of localizers
  // ---------------------------------------------------------------------------

  /** The base language of a regional code "xx_YY", when the '_' is not the first character. */
  function BaseLanguage(language: string): (r: Option<string>)
    ensures r.Some? ==> 0 < |r.value| < |language| && language[..|r.value|] == r.value && language[|r.value|] == '_'
    ensures r.Some? ==> '_' !in r.value
    ensures r.Some? <==> '_' in language && language[0] != '_'
  {
    match ArrayUtilities.IndexOf(language, '_')
    case Some(i) => if i > 0 then Some(language[..i]) else None
    case None => None
  }

  /** The language a preferred language is served by, when it is cached, available, or regional with an available base. */
  function ServedAs(cached: set<string>, available: seq<string>, language: string): Option<string> {
    if language in cached || language in available then Some(language)
    else
      match BaseLanguage(language)
      case Some(base) => if base in available then Some(base) else None
      case None => None
  }

  /** The language served for the first acceptable preference from `i` on, or the first preference when none is. */
  function ChosenFrom(cached: set<string>, available: seq<string>, languages: seq<string>, i: nat): (r: string)
    requires |languages| > 0
    decreases |languages| - i
    ensures (forall j :: i <= j < |languages| ==> ServedAs(cached, available, languages[j]).None?) ==> r == languages[0]
    ensures (exists j :: i <= j < |languages| && ServedAs(cached, available, languages[j]).Some?) ==>
      exists j :: i <= j < |languages| && ServedAs(cached, available, languages[j]) == Some(r)
        && forall k :: i <= k < j ==> ServedAs(cached, available, languages[k]).None?
  {
    if i >= |languages| then languages[0]
    else
      match ServedAs(cached, available, languages[i])
      case Some(l) => l
      case None => ChosenFrom(cached, available, languages, i + 1)
  }

  /** The language a list of preferences resolves to: the default for an empty list. */
  function Chosen(cached: set<string>, available: seq<string>, languages: seq<string>, defaultLanguage: string): string {
    if |languages| == 0 then defaultLanguage else ChosenFrom(cached, available, languages, 0)
  }

  class Registry {
    var localizers: map<string, Localizer>
    const available: seq<string>
    const settings: Settings
    var enabled: bool

    /** Every entry serves its own language, or the default language for a language that is not available. */
    predicate Valid()
      reads this
    {
      (forall lang :: lang in localizers ==>
        localizers[lang].language == lang || localizers[lang].language == settings.defaultLanguage)
      && (settings.defaultLanguage in localizers ==> localizers[settings.defaultLanguage].language == settings.defaultLanguage)
    }

    constructor(available: seq<string>, settings: Settings)
      ensures Valid() && localizers == map[] && enabled
      ensures this.available == available && this.settings == settings
    {
      localizers := map[];
      this.available := available;
      this.settings := settings;
      enabled := true;
    }

    /**
     * How a lookup of `lang` that handed back `l` leaves the registry (freshness aside):
     * a cached entry changes nothing; an available language gains its own localizer; any
     * other language shares the default language's localizer, which is added if missing.
     */
    predicate Serves(before: map<string, Localizer>, after: map<string, Localizer>, lang: string, l: Localizer) {
      lang in after && l == after[lang]
      && (lang in before ==> after == before)
      && (lang !in before && lang in available ==>
            l.language == lang && l.pluralForm == (lang !in LanguagesWithoutPluralForm)
            && after == before[lang := l])
      && (lang !in before && lang !in available ==>
            settings.defaultLanguage in after && l == after[settings.defaultLanguage]
            && l.language == settings.defaultLanguage
            && after.Keys == before.Keys + {lang, settings.defaultLanguage}
            && (forall other :: other in before ==> after[other] == before[other]))
    }

    /** The localizer for a language: cached, created when available, else shared with the default language. */
    method LocalizerForLanguage(language: Option<string>) returns (l: Localizer)
      requires Valid()
      modifies this`localizers
      ensures Valid()
      ensures !enabled ==> fresh(l) && l.language == NonlocalizedLanguage && !l.pluralForm && localizers == old(localizers)
      ensures language.GetOr(settings.defaultLanguage) == settings.defaultLanguage ==>
        l.language == DefaultLocalizerLanguage(settings, enabled)
      ensures enabled ==> var lang := language.GetOr(settings.defaultLanguage);
        Serves(old(localizers), localizers, lang, l)
        && (lang !in old(localizers) && lang in available ==> fresh(l))
    {
      if !enabled {
        l := new Localizer(NonlocalizedLanguage, false);
        return;
      }
      var lang := language.GetOr(settings.defaultLanguage);
      if lang in localizers {
        l := localizers[lang];
        return;
      }
      if lang in available {
        l := new Localizer(lang, lang !in LanguagesWithoutPluralForm);
      } else if settings.defaultLanguage in localizers {
        l := localizers[settings.defaultLanguage];
      } else {
        l := new Localizer(settings.defaultLanguage, settings.defaultLanguage !in LanguagesWithoutPluralForm);
        localizers := localizers[settings.defaultLanguage := l];
      }
      localizers := localizers[lang := l];
    }

    /** The localizer for the first preferred language that is cached or available (or whose base is); the first preference otherwise. */
    method LocalizerForLanguages(languages: seq<string>) returns (l: Localizer)
      requires Valid()
      modifies this`localizers
      ensures Valid()
      ensures !enabled ==> fresh(l) && l.language == NonlocalizedLanguage && !l.pluralForm && localizers == old(localizers)
      ensures enabled ==> var lang := Chosen(old(localizers).Keys, available, languages, settings.defaultLanguage);
        Serves(old(localizers), localizers, lang, l)
        && (lang !in old(localizers) && lang in available ==> fresh(l))
    {
      if !enabled {
        l := new Localizer(NonlocalizedLanguage, false);
        return;
      }
      if |languages| == 0 {
        l := LocalizerForLanguage(Some(settings.defaultLanguage));
        return;
      }
      ghost var cached := localizers.Keys;
      var i := 0;
      while i < |languages|
        invariant 0 <= i <= |languages|
        invariant localizers == old(localizers) && cached == localizers.Keys
        invariant ChosenFrom(cached, available, languages, 0) == ChosenFrom(cached, available, languages, i)
      {
        var language := languages[i];
        if language in localizers {
          l := localizers[language];
          return;
        }
        if language in available {
          l := LocalizerForLanguage(Some(language));
          return;
        }
        var base := BaseLanguage(language);
        if base.Some? && base.value in available {
          l := LocalizerForLanguage(base);
          return;
        }
        i := i + 1;
      }
      l := LocalizerForLanguage(Some(languages[0]));
    }
  }
}
