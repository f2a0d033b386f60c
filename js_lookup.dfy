/**
 * The lookup idiom `table[key] || fallback` on an object literal of strings, as used by
 * the icon, status and activity tables.
 */
module JsLookup {

  /**
   * Property names every object literal inherits from `Object.prototype`. Reading any of
   * them from a table yields a function (or, for `__proto__`, an object), which is truthy.
   */
  const ObjectPrototypeKeys: set<string> := {
    "constructor", "hasOwnProperty", "isPrototypeOf", "propertyIsEnumerable",
    "toLocaleString", "toString", "valueOf", "__proto__",
    "__defineGetter__", "__defineSetter__", "__lookupGetter__", "__lookupSetter__"
  }

  /** What a property read can produce here: one of the table's strings, or an inherited member. */
  datatype JsValue = Str(s: string) | InheritedMember(name: string)

  /** An own property that is present and truthy (a non-empty string). */
  predicate HasTruthyEntry(table: map<string, string>, key: string) {
    key in table && table[key] != ""
  }

  /**
   * `table[key] || fallback` exactly as JavaScript evaluates it: an own entry, even a falsy
   * `""`, hides the inherited member of the same name.
   */
  function PropertyOr(table: map<string, string>, key: string, fallback: string): (v: JsValue)
    ensures v.InheritedMember? <==> key !in table && key in ObjectPrototypeKeys
    ensures v.InheritedMember? ==> v.name == key
    ensures v.Str? && HasTruthyEntry(table, key) ==> v.s == table[key]
    ensures v.Str? && !HasTruthyEntry(table, key) ==> v.s == fallback
  {
    if HasTruthyEntry(table, key) then Str(table[key])
    else if key !in table && key in ObjectPrototypeKeys then InheritedMember(key)
    else Str(fallback)
  }

  /** An own `""` entry under an inherited name is falsy and hides the inherited member: the fallback is read. */
  lemma OwnEmptyEntryHidesInherited(fallback: string)
    ensures PropertyOr(map["constructor" := ""], "constructor", fallback) == Str(fallback)
    ensures PropertyOr(map[], "constructor", fallback) == InheritedMember("constructor")
  {
  }

  /** The evidently intended lookup: the table's entry, or `fallback` for every other key. */
  function LookupOr(table: map<string, string>, key: string, fallback: string): (r: string)
    ensures HasTruthyEntry(table, key) ==> r == table[key]
    ensures !HasTruthyEntry(table, key) ==> r == fallback
  {
    if HasTruthyEntry(table, key) then table[key] else fallback
  }

  /** The two agree on every key that is not inherited from `Object.prototype`. */
  lemma AgreeOffPrototype(table: map<string, string>, key: string, fallback: string)
    requires key !in ObjectPrototypeKeys || key in table
    ensures PropertyOr(table, key, fallback) == Str(LookupOr(table, key, fallback))
  {
  }

  /** On an inherited name that the table does not define, the lookup as written yields no string at all. */
  lemma DivergeOnPrototype(table: map<string, string>, key: string, fallback: string)
    requires key in ObjectPrototypeKeys && key !in table
    ensures PropertyOr(table, key, fallback) != Str(LookupOr(table, key, fallback))
  {
  }
}
