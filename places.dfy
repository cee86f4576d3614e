/**
 * The place-search helpers of the map view: turning a geocoder answer into
 * places, and the short label shown for a place.
 */
module Places {
  import opened Wrappers
  import opened JsValues
  import opened JsStrings

  /** `{ lat, lon, label }`; `label` is a reserved word here, hence `displayLabel`. */
  datatype Place = Place(lat: real, lon: real, displayLabel: Value)

  /** How a promise settled: with a value, or by throwing. */
  datatype Settled<+T> = Resolved(value: T) | Rejected

  /**
   * `parseFloat(v)`: a string is parsed; a number prints as its shortest
   * decimal and parses back to itself; null, undefined, booleans and objects
   * print as text that does not start a number.
   */
  function ParseFloat(parse: Parser, v: Value): (r: Number)
    ensures v.Str? ==> r == parse(v.s)
    ensures v.Num? ==> r == v.n
    ensures !v.Str? && !v.Num? ==> r == NaN
  {
    match v
    case Str(s) => parse(s)
    case Num(n) => n
    case _ => NaN
  }

  /**
   * The `map` callback of `searchPlaces` for an entry that is neither null
   * nor undefined: both coordinates must parse finite; the label is
   * `display_name`, else `name`, else the two coordinates printed with five
   * decimals (`fixed5` stands for `toFixed(5)`).
   */
  function PlaceOf(parse: Parser, fixed5: real -> string, entry: Value): (r: Option<Place>)
    ensures var lat, lon := ParseFloat(parse, Get(entry, "lat")), ParseFloat(parse, Get(entry, "lon"));
      && (r.Some? <==> lat.IsFinite() && lon.IsFinite())
      && (r.Some? ==> r.value.lat == lat.value && r.value.lon == lon.value)
    ensures r.Some? ==> Truthy(r.value.displayLabel)
    ensures r.Some? && Truthy(Get(entry, "display_name")) ==> r.value.displayLabel == Get(entry, "display_name")
    ensures r.Some? && !Truthy(Get(entry, "display_name")) && Truthy(Get(entry, "name")) ==>
      r.value.displayLabel == Get(entry, "name")
    ensures r.Some? && !Truthy(Get(entry, "display_name")) && !Truthy(Get(entry, "name")) ==>
      r.value.displayLabel == Str(fixed5(r.value.lat) + ", " + fixed5(r.value.lon))
  {
    var lat := ParseFloat(parse, Get(entry, "lat"));
    var lon := ParseFloat(parse, Get(entry, "lon"));
    if !lat.IsFinite() || !lon.IsFinite() then None
    else
      var fallback := Str(fixed5(lat.value) + ", " + fixed5(lon.value));
      Some(Place(lat.value, lon.value, Or(Get(entry, "display_name"), Or(Get(entry, "name"), fallback))))
  }

  /**
   * `data.map(...).filter(Boolean)`: the places of the entries whose
   * coordinates are finite, in order. Reading `.lat` of a null or undefined
   * entry throws, and so the whole search rejects.
   */
  function CollectPlaces(parse: Parser, fixed5: real -> string, entries: seq<Value>): (r: Settled<seq<Place>>)
    ensures r.Rejected? <==> exists i :: 0 <= i < |entries| && IsNullish(entries[i])
    ensures r.Resolved? ==> |r.value| <= |entries|
    ensures r.Resolved? ==> forall p :: p in r.value <==>
      exists i :: 0 <= i < |entries| && PlaceOf(parse, fixed5, entries[i]) == Some(p)
    decreases |entries|
  {
    if entries == [] then Resolved([])
    else if IsNullish(entries[0]) then Rejected
    else
      match CollectPlaces(parse, fixed5, entries[1..])
      case Rejected =>
        assert forall i :: 0 < i < |entries| ==> entries[i] == entries[1..][i - 1];
        Rejected
      case Resolved(rest) =>
        assert forall i :: 0 < i < |entries| ==> entries[i] == entries[1..][i - 1];
        assert forall i :: 0 <= i < |entries| - 1 ==> entries[1..][i] == entries[i + 1];
        var here := PlaceOf(parse, fixed5, entries[0]);
        Resolved((if here.Some? then [here.value] else []) + rest)
  }

  /**
   * `searchPlaces(query)` once the request has settled: `fetched` is the
   * decoded body, or Rejected when the request failed or answered an error
   * status. An empty query never sends a request.
   */
  function SearchPlaces(parse: Parser, fixed5: real -> string, query: string, fetched: Settled<Value>): (r: Settled<seq<Place>>)
    ensures query == "" ==> r == Resolved([])
    ensures query != "" && fetched.Rejected? ==> r.Rejected?
    ensures query != "" && fetched.Resolved? && !fetched.value.Arr? ==> r == Resolved([])
    ensures query != "" && fetched.Resolved? && fetched.value.Arr? ==>
      r == CollectPlaces(parse, fixed5, fetched.value.elems)
  {
    if query == "" then Resolved([])
    else match fetched
      case Rejected => Rejected
      case Resolved(data) =>
        if !data.Arr? || |data.elems| == 0 then Resolved([])
        else CollectPlaces(parse, fixed5, data.elems)
  }

  /**
   * The first place is that of the first entry whose coordinates are finite,
   * and there is none exactly when no entry has finite coordinates; this is
   * what `geocodePlace` takes as its answer.
   */
  lemma FirstPlaceIsFirstUsableEntry(parse: Parser, fixed5: real -> string, entries: seq<Value>)
    requires CollectPlaces(parse, fixed5, entries).Resolved?
    ensures var places := CollectPlaces(parse, fixed5, entries).value;
      && (places == [] <==> forall i :: 0 <= i < |entries| ==> PlaceOf(parse, fixed5, entries[i]).None?)
      && (places != [] ==> exists i ::
            (0 <= i < |entries| && PlaceOf(parse, fixed5, entries[i]) == Some(places[0])
             && forall j :: 0 <= j < i ==> PlaceOf(parse, fixed5, entries[j]).None?))
  {
    CollectPlacesKeepsOrder(parse, fixed5, entries);
    var places := CollectPlaces(parse, fixed5, entries).value;
    var opts := Attempts(parse, fixed5, entries);
    var f :| Selects(opts, places, f);
    SelectsFirst(opts, places, f);
    if places != [] {
      assert PlaceOf(parse, fixed5, entries[f[0]]) == Some(places[0]);
    }
  }

  /** Every index of `f`, one higher. */
  function Shift(f: seq<nat>): (r: seq<nat>)
    ensures |r| == |f|
    ensures forall k :: 0 <= k < |f| ==> r[k] == f[k] + 1
  {
    seq(|f|, k requires 0 <= k < |f| => f[k] + 1)
  }

  /** What the `map` callback gives for each entry, before `filter(Boolean)`. */
  function Attempts(parse: Parser, fixed5: real -> string, entries: seq<Value>): (r: seq<Option<Place>>)
    ensures |r| == |entries|
    ensures forall i :: 0 <= i < |entries| ==> r[i] == PlaceOf(parse, fixed5, entries[i])
  {
    seq(|entries|, i requires 0 <= i < |entries| => PlaceOf(parse, fixed5, entries[i]))
  }

  /**
   * `vals` is what `filter(Boolean)` keeps of `opts`, in order: `f` picks, in
   * increasing order, exactly the indices that hold a value, and `vals[k]`
   * is the value at index `f[k]`.
   */
  ghost predicate Selects<T>(opts: seq<Option<T>>, vals: seq<T>, f: seq<nat>) {
    && |f| == |vals|
    && (forall k :: 0 <= k < |f| ==> f[k] < |opts| && opts[f[k]] == Some(vals[k]))
    && (forall k, l :: 0 <= k < l < |f| ==> f[k] < f[l])
    && (forall i :: 0 <= i < |opts| && opts[i].Some? ==> i in f)
  }

  /**
   * `.map(...).filter(Boolean)` keeps entry order and drops only the unusable
   * entries: the places are the usable entries' places, each once, in order.
   */
  lemma {:induction false} CollectPlacesKeepsOrder(parse: Parser, fixed5: real -> string, entries: seq<Value>)
    requires CollectPlaces(parse, fixed5, entries).Resolved?
    ensures exists f :: Selects(Attempts(parse, fixed5, entries), CollectPlaces(parse, fixed5, entries).value, f)
    decreases |entries|
  {
    if entries == [] {
      assert Selects(Attempts(parse, fixed5, entries), [], []);
    } else {
      var rest := entries[1..];
      CollectPlacesUnfold(parse, fixed5, entries);
      var restPlaces := CollectPlaces(parse, fixed5, rest).value;
      CollectPlacesKeepsOrder(parse, fixed5, rest);
      var g :| Selects(Attempts(parse, fixed5, rest), restPlaces, g);
      AttemptsTail(parse, fixed5, entries);
      SelectionExtends(Attempts(parse, fixed5, entries), restPlaces, g);
    }
  }

  /** One step of `CollectPlaces` on a list that does not reject. */
  lemma CollectPlacesUnfold(parse: Parser, fixed5: real -> string, entries: seq<Value>)
    requires entries != [] && CollectPlaces(parse, fixed5, entries).Resolved?
    ensures CollectPlaces(parse, fixed5, entries[1..]).Resolved?
    ensures var here := Attempts(parse, fixed5, entries)[0];
      CollectPlaces(parse, fixed5, entries).value
        == (if here.Some? then [here.value] else []) + CollectPlaces(parse, fixed5, entries[1..]).value
  {
    assert !IsNullish(entries[0]);
  }

  /** The attempts of the tail are the tail of the attempts. */
  lemma AttemptsTail(parse: Parser, fixed5: real -> string, entries: seq<Value>)
    requires entries != []
    ensures Attempts(parse, fixed5, entries)[1..] == Attempts(parse, fixed5, entries[1..])
  {
    var rest := entries[1..];
    assert forall i :: 0 <= i < |rest| ==> rest[i] == entries[i + 1];
  }

  /** A selection from `opts[1..]` extends to `opts` by taking index 0 when it holds a value. */
  lemma SelectionExtends<T>(opts: seq<Option<T>>, restVals: seq<T>, g: seq<nat>)
    requires opts != []
    requires Selects(opts[1..], restVals, g)
    ensures Selects(opts, (if opts[0].Some? then [opts[0].value] else []) + restVals,
      (if opts[0].Some? then [0] else []) + Shift(g))
  {
    ExtendedPicks(opts, restVals, g);
    ExtendedIncreasing(opts[0].Some?, g);
    ExtendedCovers(opts, restVals, g);
  }

  lemma ExtendedPicks<T>(opts: seq<Option<T>>, restVals: seq<T>, g: seq<nat>)
    requires opts != []
    requires |g| == |restVals|
    requires forall k :: 0 <= k < |g| ==> g[k] < |opts[1..]| && opts[1..][g[k]] == Some(restVals[k])
    ensures var f := (if opts[0].Some? then [0] else []) + Shift(g);
      var vals := (if opts[0].Some? then [opts[0].value] else []) + restVals;
      forall k :: 0 <= k < |f| ==> f[k] < |opts| && opts[f[k]] == Some(vals[k])
  {
    var head: seq<nat> := if opts[0].Some? then [0] else [];
    var vals := (if opts[0].Some? then [opts[0].value] else []) + restVals;
    var f := head + Shift(g);
    var n := |head|;
    forall k | 0 <= k < |f|
      ensures f[k] < |opts| && opts[f[k]] == Some(vals[k])
    {
      if k >= n {
        assert f[k] == g[k - n] + 1 && vals[k] == restVals[k - n];
        assert opts[f[k]] == opts[1..][g[k - n]];
      }
    }
  }

  lemma ExtendedIncreasing(first: bool, g: seq<nat>)
    requires forall k, l :: 0 <= k < l < |g| ==> g[k] < g[l]
    ensures var f := (if first then [0] else []) + Shift(g);
      forall k, l :: 0 <= k < l < |f| ==> f[k] < f[l]
  {
    var head: seq<nat> := if first then [0] else [];
    var f := head + Shift(g);
    var n := |head|;
    forall k, l | 0 <= k < l < |f|
      ensures f[k] < f[l]
    {
      if k >= n {
        assert f[k] == g[k - n] + 1 && f[l] == g[l - n] + 1;
      } else {
        assert f[l] == g[l - n] + 1;
      }
    }
  }

  lemma ExtendedCovers<T>(opts: seq<Option<T>>, restVals: seq<T>, g: seq<nat>)
    requires opts != []
    requires forall i :: 0 <= i < |opts[1..]| && opts[1..][i].Some? ==> i in g
    ensures var f := (if opts[0].Some? then [0] else []) + Shift(g);
      forall i :: 0 <= i < |opts| && opts[i].Some? ==> i in f
  {
    var head: seq<nat> := if opts[0].Some? then [0] else [];
    var f := head + Shift(g);
    var n := |head|;
    forall i | 0 <= i < |opts| && opts[i].Some?
      ensures i in f
    {
      if i > 0 {
        assert opts[1..][i - 1] == opts[i];
        var k :| 0 <= k < |g| && g[k] == i - 1;
        assert f[n + k] == i;
      }
    }
  }

  /** The first value kept is that of the first index holding one, and none is kept iff no index holds one. */
  lemma SelectsFirst<T>(opts: seq<Option<T>>, vals: seq<T>, f: seq<nat>)
    requires Selects(opts, vals, f)
    ensures vals == [] <==> forall i :: 0 <= i < |opts| ==> opts[i].None?
    ensures vals != [] ==>
      (f[0] < |opts| && opts[f[0]] == Some(vals[0]) && forall j :: 0 <= j < f[0] ==> opts[j].None?)
  {
    if vals == [] {
      forall i | 0 <= i < |opts|
        ensures opts[i].None?
      {
        assert i !in f;
      }
    } else {
      forall j | 0 <= j < f[0]
        ensures opts[j].None?
      {
        assert forall k :: 0 < k < |f| ==> f[0] < f[k];
        assert j !in f;
      }
    }
  }

  /** `geocodePlace`: the first place `searchPlaces` finds, or null. */
  function GeocodePlace(parse: Parser, fixed5: real -> string, query: string, fetched: Settled<Value>): (r: Settled<Option<Place>>)
    ensures r.Rejected? <==> SearchPlaces(parse, fixed5, query, fetched).Rejected?
    ensures r.Resolved? && r.value.Some? ==> r.value.value in SearchPlaces(parse, fixed5, query, fetched).value
    ensures r.Resolved? ==> (r.value.None? <==> SearchPlaces(parse, fixed5, query, fetched).value == [])
    ensures r.Resolved? && r.value.Some? ==> r.value.value == SearchPlaces(parse, fixed5, query, fetched).value[0]
  {
    match SearchPlaces(parse, fixed5, query, fetched)
    case Rejected => Rejected
    case Resolved(places) => Resolved(if places == [] then None else Some(places[0]))
  }

  /**
   * `geocodePlace` on a geocoder answer that is an array without null
   * entries: the place of the first entry whose coordinates are finite, and
   * null exactly when there is no such entry.
   */
  lemma GeocodeFindsFirstUsableEntry(parse: Parser, fixed5: real -> string, query: string, entries: seq<Value>)
    requires query != ""
    requires forall i :: 0 <= i < |entries| ==> !IsNullish(entries[i])
    ensures var r := GeocodePlace(parse, fixed5, query, Resolved(Arr(entries)));
      && r.Resolved?
      && (r.value.None? <==> forall i :: 0 <= i < |entries| ==> PlaceOf(parse, fixed5, entries[i]).None?)
      && (r.value.Some? ==> exists i ::
            (0 <= i < |entries| && PlaceOf(parse, fixed5, entries[i]) == r.value
             && forall j :: 0 <= j < i ==> PlaceOf(parse, fixed5, entries[j]).None?))
  {
    FirstPlaceIsFirstUsableEntry(parse, fixed5, entries);
  }

  /**
   * `label.split(',')[0] || label`: the text before the first comma, or the
   * whole label when that text is empty.
   */
  function ShortLabel(text: string): (r: string)
    ensures r <= text
    ensures r != text ==> ',' !in r && text[|r|] == ','
    ensures ',' !in text ==> r == text
    ensures r == "" <==> text == ""
    ensures r == text <==> ',' !in text || text[0] == ','
  {
    SplitHead(text, {','});
    var head := Split(text, {','})[0];
    assert forall k :: 0 <= k < |head| ==> head[k] != ',';
    if head != "" then head else text
  }

  /** A short label is its own short label. */
  lemma ShortLabelIdempotent(text: string)
    ensures ShortLabel(ShortLabel(text)) == ShortLabel(text)
  {
  }
}
