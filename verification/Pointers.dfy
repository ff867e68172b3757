/** Comparing an optional field of a specification with a broker value. */
module Pointers {
  import opened Wrappers

  /** IsStringPtrEqualToString, IsBoolPtrEqualToBool and their twins: a nil
      pointer agrees with every value. */
  predicate Agrees<T(==)>(ptr: Option<T>, v: T) {
    ptr.Some? ==> ptr.value == v
  }

  /** cmp.Equal with EquateEmpty: nil and empty lists are the same. */
  predicate SameTags(a: Option<seq<string>>, b: seq<string>) {
    a.GetOr([]) == b
  }

  /** Lists agree when they are equal, tag by tag and in order, or when there are none on either side. */
  lemma SameTagsIff(a: Option<seq<string>>, b: seq<string>)
    ensures SameTags(a, b) <==> a == Some(b) || (a == None && b == [])
  {}

  /** Late initialisation of tags: only a non-empty list is replaced, and only
      by a non-empty one. */
  function LateTags(spec: Option<seq<string>>, api: seq<string>): Option<seq<string>> {
    if |api| > 0 && |spec.GetOr([])| > 0 then Some(api) else spec
  }

  /** Set tags are kept exactly when the broker's list is empty or equal. */
  lemma LateTagsKeptIff(spec: seq<string>, api: seq<string>)
    requires spec != []
    ensures LateTags(Some(spec), api) == Some(spec) <==> api == [] || api == spec
  {}

  /** Afterwards the tags differ exactly when one list is empty and the other is
      not: an edit from one non-empty list to another is never seen. */
  lemma LateTagsDifferIff(spec: Option<seq<string>>, api: seq<string>)
    ensures !SameTags(LateTags(spec, api), api) <==> (spec.GetOr([]) == []) != (api == [])
    ensures LateTags(LateTags(spec, api), api) == LateTags(spec, api)
  {}
}
