/** Small shared vocabulary: an optional value, and the "first n items plus
    a +k more badge" pattern that several list views use. */
module Base {

  /** A value that may be absent: stands for JavaScript's null/undefined. */
  datatype Option<+T> = None | Some(value: T)

  function Min(a: int, b: int): int
  {
    if a <= b then a else b
  }

  /** `xs.slice(0, limit)`: the first `limit` items, or all of them when
      there are fewer. */
  function Preview<T>(xs: seq<T>, limit: nat): (r: seq<T>)
    ensures |r| == Min(limit, |xs|)
    ensures r <= xs
  {
    if |xs| <= limit then xs else xs[..limit]
  }

  /** The "+k more" badge: present exactly when the list is longer than
      the preview limit, and then counting the items left out. */
  function MoreBadge<T>(xs: seq<T>, limit: nat): (r: Option<nat>)
    ensures r.Some? <==> |xs| > limit
    ensures r.Some? ==> |Preview(xs, limit)| + r.value == |xs|
    ensures r.None? ==> Preview(xs, limit) == xs
  {
    if |xs| > limit then Some(|xs| - limit) else None
  }

  /** What `obj[key]` reads on an object literal whose own keys are `own`:
      the own property; failing that, a property inherited from
      `Object.prototype` (truthy as well, so an `||` fallback is skipped);
      failing that, `undefined`. */
  datatype Property = Own(key: string) | Inherited(key: string) | Missing

  /** The properties of `Object.prototype`: section 19.1.3 and Annex B.2.2
      of ECMA-262 (10th edition, 2019). */
  const ObjectPrototypeMembers: set<string> := {
    "constructor", "hasOwnProperty", "isPrototypeOf", "propertyIsEnumerable",
    "toLocaleString", "toString", "valueOf", "__proto__",
    "__defineGetter__", "__defineSetter__", "__lookupGetter__", "__lookupSetter__"
  }

  /** Property lookup on an object literal: own keys first, then the
      prototype's members. */
  function PropertyLookup(own: set<string>, key: string): (r: Property)
    ensures r.Own? <==> key in own
    ensures r.Inherited? <==> key !in own && key in ObjectPrototypeMembers
    ensures r.Missing? <==> key !in own && key !in ObjectPrototypeMembers
    ensures !r.Missing? ==> r.key == key
  {
    if key in own then Own(key)
    else if key in ObjectPrototypeMembers then Inherited(key)
    else Missing
  }

  /** True when `sub` can be obtained from `s` by deleting elements. */
  predicate IsSubsequence<T(==)>(sub: seq<T>, s: seq<T>)
    decreases |s|
  {
    || |sub| == 0
    || (|s| > 0 && sub[0] == s[0] && IsSubsequence(sub[1..], s[1..]))
    || (|s| > 0 && IsSubsequence(sub, s[1..]))
  }
}
