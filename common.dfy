// Values shared by the front-end components and the back end: optional
// values (JavaScript null/undefined, Python None), records as ordered lists
// of fields, and the truthiness tests that the source applies to them.
module Common {

  datatype Option<+T> = None | Some(value: T)

  /** One own property of a record object: its key and its (possibly null) value. */
  datatype Field = Field(key: string, value: Option<string>)

  /** A record (a document, a search result, a bookmark) in its own key order. */
  type Record = seq<Field>

  /** `x` is truthy in JavaScript or Python: present and not the empty string. */
  predicate Truthy(x: Option<string>)
  {
    x.Some? && x.value != ""
  }

  /** `x || ''`: the value when it is truthy, the empty string otherwise. */
  function OrEmpty(x: Option<string>): (r: string)
    ensures Truthy(x) ==> r == x.value
    ensures !Truthy(x) ==> r == ""
  {
    if Truthy(x) then x.value else ""
  }

  /** `x or y` (and `x || y`): the first operand when it is truthy, else the second. */
  function Or(x: Option<string>, y: Option<string>): (r: Option<string>)
    ensures Truthy(x) ==> r == x
    ensures !Truthy(x) ==> r == y
  {
    if Truthy(x) then x else y
  }

  /** Property access `rec.key`: the value of the first field named `key`; None when absent or null. */
  function Get(rec: Record, key: string): (r: Option<string>)
    ensures r.Some? ==> exists i :: 0 <= i < |rec| && rec[i] == Field(key, r)
    ensures (forall i :: 0 <= i < |rec| ==> rec[i].key != key) ==> r.None?
  {
    if rec == [] then None
    else if rec[0].key == key then rec[0].value
    else Get(rec[1..], key)
  }

  /** `Object.keys(rec)`. */
  function Keys(rec: Record): seq<string>
  {
    seq(|rec|, i requires 0 <= i < |rec| => rec[i].key)
  }

  /** `Object.values(rec)`. */
  function Values(rec: Record): seq<Option<string>>
  {
    seq(|rec|, i requires 0 <= i < |rec| => rec[i].value)
  }

  /** `a` is `b` with some elements left out, the rest kept in their order. */
  predicate IsSubsequence<T(==)>(a: seq<T>, b: seq<T>)
    decreases |b|
  {
    if a == [] then true
    else if b == [] then false
    else if a[0] == b[0] then IsSubsequence(a[1..], b[1..])
    else IsSubsequence(a, b[1..])
  }

  /** Concatenation regrouped to the right. */
  lemma AppendAssoc<T>(a: seq<T>, b: seq<T>, c: seq<T>)
    ensures a + b + c == a + (b + c)
  {
  }

  lemma AppendAssoc4<T>(a: seq<T>, b: seq<T>, c: seq<T>, d: seq<T>)
    ensures a + b + c + d == a + (b + c + d)
  {
  }
}
