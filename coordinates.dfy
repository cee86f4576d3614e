/**
 * The coordinate decoder of the results view: it looks for a latitude and
 * longitude anywhere in an untyped item payload, through alias keys, nested
 * `coordinates` and `point` fields, arrays and "lat,lon" strings.
 */
module Coordinates {
  import opened Wrappers
  import opened JsValues
  import opened JsStrings

  /** `{ lat, lon }`; both are finite numbers, which `real` expresses. */
  datatype LatLon = LatLon(lat: real, lon: real)

  /** Latitude keys, in the order they are tried. */
  const LatKeys: seq<string> := ["lat", "latitude", "lat_deg"]

  /** Longitude keys, in the order they are tried. */
  const LonKeys: seq<string> := ["lon", "lng", "longitude", "lon_deg"]

  /** The separators of a "lat,lon" or "lat;lon" string. */
  const TextSeparators: set<char> := {',', ';'}

  /**
   * `toNumberLike`: a finite number is kept; a string that is not blank is
   * parsed and kept when the parse is finite; everything else is null.
   */
  function ToNumberLike(parse: Parser, v: Value): (r: Option<real>)
    ensures r.Some? <==> (v.Num? && v.n.IsFinite()) || (v.Str? && !AllWhitespace(v.s) && parse(v.s).IsFinite())
    ensures r.Some? && v.Num? ==> r.value == v.n.value
    ensures r.Some? && v.Str? ==> r.value == parse(v.s).value
  {
    match v
    case Num(n) => if n.IsFinite() then Some(n.value) else None
    case Str(s) =>
      TrimBlank(s);
      if Trim(s) != "" && parse(s).IsFinite() then Some(parse(s).value) else None
    case _ => None
  }

  /** The candidate has `key` and its value converts to a number. */
  predicate Parses(parse: Parser, candidate: map<string, Value>, key: string) {
    key in candidate && ToNumberLike(parse, candidate[key]).Some?
  }

  /**
   * The value an alias loop ends with: the converted value of the first key
   * of `keys` that is present and converts; a key that is present but does
   * not convert leaves the search going.
   */
  function FirstAlias(parse: Parser, candidate: map<string, Value>, keys: seq<string>): Option<real> {
    if keys == [] then None
    else if Parses(parse, candidate, keys[0]) then ToNumberLike(parse, candidate[keys[0]])
    else FirstAlias(parse, candidate, keys[1..])
  }

  /**
   * The alias loop as written: `for (const key of keys) if (v === null && key in candidate)
   * v = toNumberLike(candidate[key])`.
   */
  method ScanAliases(parse: Parser, candidate: map<string, Value>, keys: seq<string>) returns (found: Option<real>)
    ensures found == FirstAlias(parse, candidate, keys)
  {
    found := None;
    for i := 0 to |keys|
      invariant found.Some? ==> found == FirstAlias(parse, candidate, keys)
      invariant found.None? ==> FirstAlias(parse, candidate, keys) == FirstAlias(parse, candidate, keys[i..])
    {
      if found.None? && keys[i] in candidate {
        found := ToNumberLike(parse, candidate[keys[i]]);
      }
      assert keys[i..][1..] == keys[i + 1..];
    }
  }

  /** `findLatLon`: a pure search of the payload tree, first match wins. */
  function FindLatLon(parse: Parser, candidate: Value): (r: Option<LatLon>)
    ensures !Truthy(candidate) ==> r.None?
    ensures candidate.Num? || candidate.Bool? ==> r.None?
    decreases candidate
  {
    if !Truthy(candidate) then None
    else match candidate
      case Arr(entries) => FirstFound(parse, entries)
      case Str(s) => FromText(parse, s)
      case Obj(fields) =>
        var lat := FirstAlias(parse, fields, LatKeys);
        var lon := FirstAlias(parse, fields, LonKeys);
        if lat.Some? && lon.Some? then Some(LatLon(lat.value, lon.value))
        else if "coordinates" in fields && FindLatLon(parse, fields["coordinates"]).Some? then
          FindLatLon(parse, fields["coordinates"])
        else if "point" in fields && FindLatLon(parse, fields["point"]).Some? then
          FindLatLon(parse, fields["point"])
        else None
      case _ => None
  }

  /** The array branch: the result of the first entry that yields one. */
  function FirstFound(parse: Parser, entries: seq<Value>): Option<LatLon>
    decreases entries
  {
    if entries == [] then None
    else FindLatLon(parse, entries[0]).OrElse(FirstFound(parse, entries[1..]))
  }

  /** `parts.map(part => part.trim())` */
  function TrimEach(parts: seq<string>): (r: seq<string>)
    ensures |r| == |parts|
    ensures forall i :: 0 <= i < |parts| ==> r[i] == Trim(parts[i])
  {
    seq(|parts|, i requires 0 <= i < |parts| => Trim(parts[i]))
  }

  /** The string branch: split on `,` or `;`, trim, and read parts 0 and 1. */
  function FromText(parse: Parser, s: string): Option<LatLon> {
    var parts := TrimEach(Split(s, TextSeparators));
    if |parts| >= 2 then
      var lat := ToNumberLike(parse, Str(parts[0]));
      var lon := ToNumberLike(parse, Str(parts[1]));
      if lat.Some? && lon.Some? then Some(LatLon(lat.value, lon.value)) else None
    else None
  }

  /** `extractLatLonFromPayload`: `locations`, `geo_metadata`, `location`, then the top-level `lat`/`lon`. */
  function ExtractLatLon(parse: Parser, payload: Value): (r: Option<LatLon>)
    ensures !payload.Obj? ==> r.None?
    ensures payload.Obj? && FindLatLon(parse, Get(payload, "locations")).Some? ==>
      r == FindLatLon(parse, Get(payload, "locations"))
    ensures (payload.Obj? && FindLatLon(parse, Get(payload, "locations")).None?
             && FindLatLon(parse, Get(payload, "geo_metadata")).Some?) ==>
      r == FindLatLon(parse, Get(payload, "geo_metadata"))
    ensures (payload.Obj? && FindLatLon(parse, Get(payload, "locations")).None?
             && FindLatLon(parse, Get(payload, "geo_metadata")).None?
             && FindLatLon(parse, Get(payload, "location")).Some?) ==>
      r == FindLatLon(parse, Get(payload, "location"))
    ensures (payload.Obj? && FindLatLon(parse, Get(payload, "locations")).None?
             && FindLatLon(parse, Get(payload, "geo_metadata")).None?
             && FindLatLon(parse, Get(payload, "location")).None?) ==>
      r == FindLatLon(parse, TopLevelPair(payload))
  {
    if !Truthy(payload) || !IsObjectType(payload) then None
    else
      NoPairInUndefinedPair(parse);
      FindLatLon(parse, Get(payload, "locations"))
        .OrElse(FindLatLon(parse, Get(payload, "geo_metadata")))
        .OrElse(FindLatLon(parse, Get(payload, "location")))
        .OrElse(FindLatLon(parse, TopLevelPair(payload)))
  }

  /** `{ lat: payload.lat, lon: payload.lon }` */
  function TopLevelPair(payload: Value): Value {
    Obj(map["lat" := Get(payload, "lat"), "lon" := Get(payload, "lon")])
  }

  /** An array payload has no `lat` or `lon`, so its top-level pair yields nothing. */
  lemma NoPairInUndefinedPair(parse: Parser)
    ensures FindLatLon(parse, Obj(map["lat" := Undefined, "lon" := Undefined])).None?
  {
    var fields := map["lat" := Undefined, "lon" := Undefined];
    assert FirstAlias(parse, fields, LatKeys[2..]) == None;
    assert FirstAlias(parse, fields, LatKeys[1..]) == None;
  }

  /* ---- The alias search ---- */

  /**
   * The alias search yields a value exactly when some key of the list is
   * present and converts, and then it is the value of the first such key.
   */
  lemma {:induction false} FirstAliasIsFirstParsing(parse: Parser, candidate: map<string, Value>, keys: seq<string>)
    ensures FirstAlias(parse, candidate, keys).Some? <==>
      exists i :: 0 <= i < |keys| && Parses(parse, candidate, keys[i])
    ensures FirstAlias(parse, candidate, keys).Some? ==>
      exists i :: 0 <= i < |keys| && Parses(parse, candidate, keys[i])
        && FirstAlias(parse, candidate, keys) == ToNumberLike(parse, candidate[keys[i]])
        && forall j :: 0 <= j < i ==> !Parses(parse, candidate, keys[j])
  {
    if keys != [] {
      FirstAliasIsFirstParsing(parse, candidate, keys[1..]);
      if !Parses(parse, candidate, keys[0]) {
        if exists i :: 0 <= i < |keys| && Parses(parse, candidate, keys[i]) {
          var i :| 0 <= i < |keys| && Parses(parse, candidate, keys[i]);
          assert keys[1..][i - 1] == keys[i];
        }
        if FirstAlias(parse, candidate, keys).Some? {
          var i :| 0 <= i < |keys[1..]| && Parses(parse, candidate, keys[1..][i])
            && FirstAlias(parse, candidate, keys[1..]) == ToNumberLike(parse, candidate[keys[1..][i]])
            && forall j :: 0 <= j < i ==> !Parses(parse, candidate, keys[1..][j]);
          assert forall j :: 0 <= j < i + 1 ==> !Parses(parse, candidate, keys[j]) by {
            forall j | 0 <= j < i + 1 ensures !Parses(parse, candidate, keys[j]) {
              if j > 0 { assert keys[j] == keys[1..][j - 1]; }
            }
          }
        }
      }
    }
  }

  /** Keys outside the alias list play no part in the alias search. */
  lemma {:induction false} FirstAliasIgnoresOtherKeys(parse: Parser, candidate: map<string, Value>, keys: seq<string>, key: string, v: Value)
    requires key !in keys
    ensures FirstAlias(parse, candidate[key := v], keys) == FirstAlias(parse, candidate, keys)
  {
    if keys != [] {
      FirstAliasIgnoresOtherKeys(parse, candidate, keys[1..], key, v);
    }
  }

  /* ---- The search over the payload tree ---- */

  /**
   * On an array the search returns the result of the first entry that
   * yields one, and null when no entry does.
   */
  lemma {:induction false} ArrayFirstMatch(parse: Parser, entries: seq<Value>)
    ensures FindLatLon(parse, Arr(entries)).None? <==>
      forall i :: 0 <= i < |entries| ==> FindLatLon(parse, entries[i]).None?
    ensures FindLatLon(parse, Arr(entries)).Some? ==>
      exists i :: 0 <= i < |entries| && FindLatLon(parse, Arr(entries)) == FindLatLon(parse, entries[i])
        && forall j :: 0 <= j < i ==> FindLatLon(parse, entries[j]).None?
    decreases |entries|
  {
    if entries != [] {
      ArrayFirstMatch(parse, entries[1..]);
      var rest := entries[1..];
      assert FindLatLon(parse, Arr(rest)) == FirstFound(parse, rest);
      assert forall i :: 0 < i < |entries| ==> entries[i] == rest[i - 1];
      assert FindLatLon(parse, Arr(entries)) == FindLatLon(parse, entries[0]).OrElse(FindLatLon(parse, Arr(rest)));
      if FindLatLon(parse, entries[0]).None? && FindLatLon(parse, Arr(entries)).Some? {
        assert FindLatLon(parse, Arr(rest)).Some?;
        var i :| 0 <= i < |rest| && FindLatLon(parse, Arr(rest)) == FindLatLon(parse, rest[i])
          && forall j :: 0 <= j < i ==> FindLatLon(parse, rest[j]).None?;
        assert FindLatLon(parse, Arr(entries)) == FindLatLon(parse, entries[i + 1]);
      }
    }
  }

  /**
   * The string branch: with `a` and `b` the text up to the first and the
   * second separator, the pair is the parse of `a` and `b` trimmed, when both
   * are non-blank and finite; whatever follows the second separator is
   * ignored.
   */
  lemma TextPair(parse: Parser, a: string, c: char, b: string, rest: string)
    requires forall k :: 0 <= k < |a| ==> a[k] !in TextSeparators
    requires forall k :: 0 <= k < |b| ==> b[k] !in TextSeparators
    requires c in TextSeparators
    requires rest == [] || rest[0] in TextSeparators
    ensures var lat, lon := Trim(a), Trim(b);
      FindLatLon(parse, Str(a + [c] + b + rest)) ==
        if lat != "" && parse(lat).IsFinite() && lon != "" && parse(lon).IsFinite()
        then Some(LatLon(parse(lat).value, parse(lon).value))
        else None
  {
    var s := a + [c] + b + rest;
    assert s[|a|] == c;
    assert Truthy(Str(s));
    assert FindLatLon(parse, Str(s)) == FromText(parse, s);
    FromTextPair(parse, a, c, b, rest);
  }

  /** `TextPair` for the string branch alone. */
  lemma FromTextPair(parse: Parser, a: string, c: char, b: string, rest: string)
    requires forall k :: 0 <= k < |a| ==> a[k] !in TextSeparators
    requires forall k :: 0 <= k < |b| ==> b[k] !in TextSeparators
    requires c in TextSeparators
    requires rest == [] || rest[0] in TextSeparators
    ensures var lat, lon := Trim(a), Trim(b);
      FromText(parse, a + [c] + b + rest) ==
        if lat != "" && parse(lat).IsFinite() && lon != "" && parse(lon).IsFinite()
        then Some(LatLon(parse(lat).value, parse(lon).value))
        else None
  {
    var s := a + [c] + b + rest;
    var split := Split(s, TextSeparators);
    SplitFirstTwo(a, c, b, rest, TextSeparators);
    var parts := TrimEach(split);
    assert parts[0] == Trim(a) && parts[1] == Trim(b);
    TrimmedNumber(parse, a);
    TrimmedNumber(parse, b);
  }

  /** A trimmed part converts exactly when it is non-empty and its parse is finite. */
  lemma TrimmedNumber(parse: Parser, t: string)
    ensures ToNumberLike(parse, Str(Trim(t))) ==
      if Trim(t) != "" && parse(Trim(t)).IsFinite() then Some(parse(Trim(t)).value) else None
  {
    var u := Trim(t);
    TrimIdempotent(t);
    TrimBlank(u);
    assert u == "" <==> AllWhitespace(u);
    var r := ToNumberLike(parse, Str(u));
    assert r.Some? <==> !AllWhitespace(u) && parse(u).IsFinite();
  }

  /** The first two parts of a split are the text before the first separator and the text between the first two. */
  lemma SplitFirstTwo(a: string, c: char, b: string, rest: string, seps: set<char>)
    requires forall k :: 0 <= k < |a| ==> a[k] !in seps
    requires forall k :: 0 <= k < |b| ==> b[k] !in seps
    requires c in seps
    requires rest == [] || rest[0] in seps
    ensures |Split(a + [c] + b + rest, seps)| >= 2
    ensures Split(a + [c] + b + rest, seps)[0] == a && Split(a + [c] + b + rest, seps)[1] == b
  {
    var tail := b + rest;
    assert a + [c] + b + rest == a + [c] + tail;
    SplitAtFirst(a, c, tail, seps);
    SplitHeadBefore(b, rest, seps);
  }

  /** Text without separators, followed by a separator or by nothing, is the first part. */
  lemma SplitHeadBefore(b: string, rest: string, seps: set<char>)
    requires forall k :: 0 <= k < |b| ==> b[k] !in seps
    requires rest == [] || rest[0] in seps
    ensures Split(b + rest, seps)[0] == b
  {
    if rest == [] {
      assert b + rest == b;
      SplitWithoutSeparator(b, seps);
    } else {
      assert b + rest == b + [rest[0]] + rest[1..];
      SplitAtFirst(b, rest[0], rest[1..], seps);
    }
  }

  /** A string with no `,` or `;` holds no pair. */
  lemma TextWithoutSeparator(parse: Parser, s: string)
    requires forall k :: 0 <= k < |s| ==> s[k] !in TextSeparators
    ensures FindLatLon(parse, Str(s)).None?
  {
    SplitWithoutSeparator(s, TextSeparators);
  }

  /**
   * Object precedence, the `coordinates` half: when the object's own alias
   * keys give both numbers, its `coordinates` field is never consulted.
   */
  lemma CoordinatesIgnoredAfterDirectPair(parse: Parser, fields: map<string, Value>, v: Value)
    requires FirstAlias(parse, fields, LatKeys).Some? && FirstAlias(parse, fields, LonKeys).Some?
    ensures FindLatLon(parse, Obj(fields["coordinates" := v])) == FindLatLon(parse, Obj(fields))
    ensures FindLatLon(parse, Obj(fields)) ==
      Some(LatLon(FirstAlias(parse, fields, LatKeys).value, FirstAlias(parse, fields, LonKeys).value))
  {
    FirstAliasIgnoresOtherKeys(parse, fields, LatKeys, "coordinates", v);
    FirstAliasIgnoresOtherKeys(parse, fields, LonKeys, "coordinates", v);
  }

  /**
   * Object precedence, the `coordinates` fallback: when the alias keys do not
   * give both numbers and `coordinates` yields a pair, that pair is the result.
   */
  lemma CoordinatesReadAfterFailedPair(parse: Parser, fields: map<string, Value>)
    requires !(FirstAlias(parse, fields, LatKeys).Some? && FirstAlias(parse, fields, LonKeys).Some?)
    requires "coordinates" in fields && FindLatLon(parse, fields["coordinates"]).Some?
    ensures FindLatLon(parse, Obj(fields)) == FindLatLon(parse, fields["coordinates"])
  {
  }

  /**
   * Object precedence, the `point` half: when the alias keys or the
   * `coordinates` field already give a pair, the `point` field is never
   * consulted; `point` is read only when both earlier sources give null.
   */
  lemma PointIgnoredAfterEarlierSource(parse: Parser, fields: map<string, Value>, v: Value)
    requires FindLatLon(parse, Obj(fields - {"point"})).Some?
    ensures FindLatLon(parse, Obj(fields["point" := v])) == FindLatLon(parse, Obj(fields - {"point"}))
  {
    var base := fields - {"point"};
    assert fields["point" := v] == base["point" := v];
    FirstAliasIgnoresOtherKeys(parse, base, LatKeys, "point", v);
    FirstAliasIgnoresOtherKeys(parse, base, LonKeys, "point", v);
    assert "coordinates" in base ==> base["point" := v]["coordinates"] == base["coordinates"];
  }

  /**
   * When neither the alias keys nor `coordinates` give a pair, the result is
   * that of `point`, and null when there is no `point`: no other field is read.
   */
  lemma PointIsLastResort(parse: Parser, fields: map<string, Value>)
    requires !(FirstAlias(parse, fields, LatKeys).Some? && FirstAlias(parse, fields, LonKeys).Some?)
    requires !("coordinates" in fields && FindLatLon(parse, fields["coordinates"]).Some?)
    ensures FindLatLon(parse, Obj(fields)) == if "point" in fields then FindLatLon(parse, fields["point"]) else None
  {
  }

  /* ---- Soundness: a pair is only ever read from the payload ---- */

  /**
   * `ll` is written somewhere in `v`: as a "lat,lon" string, or as an
   * object's alias keys, at any depth.
   */
  ghost predicate Offers(parse: Parser, v: Value, ll: LatLon)
    decreases v
  {
    match v
    case Str(s) => FromText(parse, s) == Some(ll)
    case Arr(entries) => exists i :: 0 <= i < |entries| && Offers(parse, entries[i], ll)
    case Obj(fields) =>
      || (FirstAlias(parse, fields, LatKeys) == Some(ll.lat) && FirstAlias(parse, fields, LonKeys) == Some(ll.lon))
      || (exists k :: k in fields && Offers(parse, fields[k], ll))
    case _ => false
  }

  /** Every pair the search returns is written in the payload; nothing is invented. */
  lemma {:induction false} FindLatLonSound(parse: Parser, candidate: Value)
    ensures FindLatLon(parse, candidate).Some? ==> Offers(parse, candidate, FindLatLon(parse, candidate).value)
    decreases candidate
  {
    var r := FindLatLon(parse, candidate);
    if r.Some? {
      match candidate
      case Arr(entries) =>
        ArrayFirstMatch(parse, entries);
        var i :| 0 <= i < |entries| && r == FindLatLon(parse, entries[i]);
        FindLatLonSound(parse, entries[i]);
      case Str(_) =>
      case Obj(fields) =>
        var lat := FirstAlias(parse, fields, LatKeys);
        var lon := FirstAlias(parse, fields, LonKeys);
        if !(lat.Some? && lon.Some?) {
          if "coordinates" in fields && FindLatLon(parse, fields["coordinates"]).Some? {
            FindLatLonSound(parse, fields["coordinates"]);
          } else {
            FindLatLonSound(parse, fields["point"]);
          }
        }
    }
  }

  /* ---- The payload entry point ---- */

  /**
   * When `locations`, `geo_metadata` and `location` give nothing, only the
   * top-level `lat` and `lon` keys are read (not their aliases), and the pair
   * is found exactly when both convert.
   */
  lemma TopLevelFallback(parse: Parser, fields: map<string, Value>)
    requires FindLatLon(parse, Get(Obj(fields), "locations")).None?
    requires FindLatLon(parse, Get(Obj(fields), "geo_metadata")).None?
    requires FindLatLon(parse, Get(Obj(fields), "location")).None?
    ensures var lat, lon := ToNumberLike(parse, Get(Obj(fields), "lat")), ToNumberLike(parse, Get(Obj(fields), "lon"));
      ExtractLatLon(parse, Obj(fields)) ==
        if lat.Some? && lon.Some? then Some(LatLon(lat.value, lon.value)) else None
  {
    var pair := map["lat" := Get(Obj(fields), "lat"), "lon" := Get(Obj(fields), "lon")];
    assert FirstAlias(parse, pair, LatKeys[2..]) == None;
    assert FirstAlias(parse, pair, LatKeys[1..]) == FirstAlias(parse, pair, LatKeys[2..]);
    assert FirstAlias(parse, pair, LonKeys[3..]) == None;
    assert FirstAlias(parse, pair, LonKeys[2..]) == FirstAlias(parse, pair, LonKeys[3..]);
    assert FirstAlias(parse, pair, LonKeys[1..]) == FirstAlias(parse, pair, LonKeys[2..]);
    var tl := TopLevelPair(Obj(fields));
    assert tl == Obj(pair);
    if FindLatLon(parse, tl).None? {
      assert !(FirstAlias(parse, pair, LatKeys).Some? && FirstAlias(parse, pair, LonKeys).Some?);
    }
  }

  /** Every pair the payload decoder returns is written in the payload. */
  lemma ExtractLatLonSound(parse: Parser, payload: Value)
    ensures ExtractLatLon(parse, payload).Some? ==> Offers(parse, payload, ExtractLatLon(parse, payload).value)
  {
    var r := ExtractLatLon(parse, payload);
    if r.Some? {
      var fields := payload.fields;
      var sources := ["locations", "geo_metadata", "location"];
      if k :| k in sources && FindLatLon(parse, Get(payload, k)).Some? {
        var k0 :| k0 in sources && k0 in fields && FindLatLon(parse, fields[k0]).Some?
          && r == FindLatLon(parse, fields[k0]);
        FindLatLonSound(parse, fields[k0]);
      } else {
        TopLevelFallback(parse, fields);
        var lat := ToNumberLike(parse, Get(payload, "lat"));
        assert FirstAlias(parse, fields, LatKeys) == lat;
        assert FirstAlias(parse, fields, LonKeys) == ToNumberLike(parse, Get(payload, "lon"));
      }
    }
  }
}
