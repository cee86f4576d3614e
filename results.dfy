/**
 * The search-response helpers of the results view: picking the item list out
 * of the shapes the endpoints answer with, and picking an item's id.
 */
module Results {
  import opened Wrappers
  import opened JsValues

  /** `json.result` */
  function Envelope(json: Value): Value {
    Get(json, "result")
  }

  /**
   * `normalizeResults`: `result.items`, else `result.prepare_llm_itemsitems`,
   * else `items`, else the response itself, whichever is an array first;
   * `[]` when none is. It never fails.
   */
  function NormalizeResults(json: Value): (r: seq<Value>)
    ensures !IsObjectType(json) ==> r == []
    ensures json.Arr? ==> r == json.elems
    ensures Truthy(json) && Get(Envelope(json), "items").Arr? ==> r == Get(Envelope(json), "items").elems
    ensures r == [] || Arr(r) in ShapeCandidates(json)
  {
    if !Truthy(json) || !IsObjectType(json) then []
    else if Truthy(Envelope(json)) && Get(Envelope(json), "items").Arr? then
      Get(Envelope(json), "items").elems
    else if Truthy(Envelope(json)) && Get(Envelope(json), "prepare_llm_itemsitems").Arr? then
      Get(Envelope(json), "prepare_llm_itemsitems").elems
    else if Get(json, "items").Arr? then Get(json, "items").elems
    else if json.Arr? then json.elems
    else []
  }

  /** The places an item list may sit, in the order they are tried. */
  function ShapeCandidates(json: Value): (r: seq<Value>)
    ensures |r| == 4
  {
    [Get(Envelope(json), "items"), Get(Envelope(json), "prepare_llm_itemsitems"), Get(json, "items"), json]
  }

  /** The elements of the first candidate that is an array. */
  function FirstArray(candidates: seq<Value>): Option<seq<Value>> {
    if candidates == [] then None
    else if candidates[0].Arr? then Some(candidates[0].elems)
    else FirstArray(candidates[1..])
  }

  /** `FirstArray` finds the first array of the list, and finds one whenever there is one. */
  lemma {:induction false} FirstArrayIsFirst(candidates: seq<Value>)
    ensures FirstArray(candidates).None? <==> forall i :: 0 <= i < |candidates| ==> !candidates[i].Arr?
    ensures FirstArray(candidates).Some? ==>
      exists i :: 0 <= i < |candidates| && candidates[i] == Arr(FirstArray(candidates).value)
        && forall j :: 0 <= j < i ==> !candidates[j].Arr?
  {
    if candidates != [] {
      var rest := candidates[1..];
      FirstArrayIsFirst(rest);
      assert forall i :: 0 < i < |candidates| ==> candidates[i] == rest[i - 1];
      if !candidates[0].Arr? && FirstArray(candidates).Some? {
        var i :| 0 <= i < |rest| && rest[i] == Arr(FirstArray(rest).value)
          && forall j :: 0 <= j < i ==> !rest[j].Arr?;
        assert candidates[i + 1] == rest[i];
      }
    }
  }

  /**
   * `normalizeResults` is the first array among the four candidate places.
   * The `if (json.result)` guard changes no outcome: a falsy `result` has no
   * `items` array; it only avoids reading a property of null.
   */
  lemma NormalizeIsFirstArray(json: Value)
    requires Truthy(json) && IsObjectType(json)
    ensures NormalizeResults(json) == FirstArray(ShapeCandidates(json)).GetOr([])
  {
    var c := ShapeCandidates(json);
    assert c[1..][1..][1..][1..] == [];
    assert FirstArray(c[1..][1..][1..]) == if c[3].Arr? then Some(c[3].elems) else None;
    assert FirstArray(c[1..][1..]) == if c[2].Arr? then Some(c[2].elems) else FirstArray(c[1..][1..][1..]);
    assert FirstArray(c[1..]) == if c[1].Arr? then Some(c[1].elems) else FirstArray(c[1..][1..]);
    if !Truthy(Envelope(json)) {
      assert !Envelope(json).Obj?;
      assert !c[0].Arr? && !c[1].Arr?;
    }
  }

  /** `getItemId`: `item.id ?? payload.id ?? payload.item_id ?? null`, with `payload = item.payload || {}`. */
  function GetItemId(item: Value): (r: Value)
    ensures !r.Undefined?
    ensures !Truthy(item) ==> r == Null
    ensures Truthy(item) && !IsNullish(Get(item, "id")) ==> r == Get(item, "id")
  {
    if !Truthy(item) then Null
    else
      var payload := Or(Get(item, "payload"), Obj(map[]));
      Coalesce(Get(item, "id"), Coalesce(Get(payload, "id"), Coalesce(Get(payload, "item_id"), Null)))
  }

  /** The places an id may sit, in the order they are tried. */
  function IdSources(item: Value): seq<Value> {
    var payload := Or(Get(item, "payload"), Obj(map[]));
    [Get(item, "id"), Get(payload, "id"), Get(payload, "item_id")]
  }

  /** `vs[0] ?? vs[1] ?? ... ?? null` */
  function FirstPresent(vs: seq<Value>): Value {
    if vs == [] then Null
    else if !IsNullish(vs[0]) then vs[0]
    else FirstPresent(vs[1..])
  }

  /**
   * A `??` chain ending in null gives the first value that is neither null
   * nor undefined, and null when there is none.
   */
  lemma {:induction false} FirstPresentIsFirst(vs: seq<Value>)
    ensures FirstPresent(vs) == Null <==> forall i :: 0 <= i < |vs| ==> IsNullish(vs[i])
    ensures FirstPresent(vs) != Null ==>
      exists i :: 0 <= i < |vs| && vs[i] == FirstPresent(vs) && forall j :: 0 <= j < i ==> IsNullish(vs[j])
  {
    if vs != [] {
      var rest := vs[1..];
      FirstPresentIsFirst(rest);
      assert forall i :: 0 < i < |vs| ==> vs[i] == rest[i - 1];
      if IsNullish(vs[0]) && FirstPresent(vs) != Null {
        var i :| 0 <= i < |rest| && rest[i] == FirstPresent(rest) && forall j :: 0 <= j < i ==> IsNullish(rest[j]);
        assert vs[i + 1] == rest[i];
      }
    }
  }

  /** The id of a truthy item is the first of `item.id`, `payload.id`, `payload.item_id` that holds a value. */
  lemma ItemIdIsFirstPresent(item: Value)
    requires Truthy(item)
    ensures GetItemId(item) == FirstPresent(IdSources(item))
  {
    var vs := IdSources(item);
    assert vs[1..][1..][1..] == [];
    assert FirstPresent(vs[1..][1..]) == Coalesce(vs[2], Null);
    assert FirstPresent(vs[1..]) == Coalesce(vs[1], FirstPresent(vs[1..][1..]));
  }

  /** Only null and undefined fall through: a falsy id such as `0` or `""` is returned as it is. */
  lemma FalsyIdIsKept(item: Value, id: Value)
    requires item.Obj? && "id" in item.fields && item.fields["id"] == id
    requires !IsNullish(id) && !Truthy(id)
    ensures GetItemId(item) == id && !Truthy(GetItemId(item))
  {
  }
}
