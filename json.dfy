/** Decoded JSON values, as `json.loads` returns them. */
module Json {
  import opened Wrappers

  /** An object keeps its members in the order they were received. */
  datatype Json =
    | Obj(fields: seq<(string, Json)>)
    | Arr(items: seq<Json>)
    | Str(str: string)
    | Num(num: real)
    | Bool(b: bool)
    | Null

  /** Neither a `dict` nor a `list` once decoded. */
  predicate IsScalar(v: Json) {
    !v.Obj? && !v.Arr?
  }

  /** `d.get(k)` on an ordered mapping. */
  function Get<T>(fields: seq<(string, T)>, k: string): (r: Option<T>)
    ensures r.Some? ==> exists i :: 0 <= i < |fields| && fields[i] == (k, r.value)
    ensures r.None? <==> forall i :: 0 <= i < |fields| ==> fields[i].0 != k
  {
    if fields == [] then None
    else if fields[0].0 == k then Some(fields[0].1)
    else
      var r := Get(fields[1..], k);
      assert forall i :: 1 <= i < |fields| ==> fields[i] == fields[1..][i - 1];
      r
  }
}
