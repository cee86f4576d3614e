/**
 * `String.prototype.trim` and `String.prototype.split` on a one-character
 * separator class (`split(',')`, `split(/[,;]/)`), as the decoders use them.
 */
module JsStrings {

  /**
   * The characters `trim` removes: the ECMAScript WhiteSpace code points
   * (tab, vertical tab, form feed, ZWNBSP and the Zs space separators) and
   * the LineTerminator code points.
   */
  predicate IsWhitespace(c: char) {
    || c == '\t' || c == '\n' || c == '\U{000B}' || c == '\U{000C}' || c == '\r'
    || c == ' ' || c == '\U{00A0}' || c == '\U{1680}'
    || ('\U{2000}' <= c <= '\U{200A}')
    || c == '\U{2028}' || c == '\U{2029}' || c == '\U{202F}' || c == '\U{205F}'
    || c == '\U{3000}' || c == '\U{FEFF}'
  }

  predicate AllWhitespace(s: string) {
    forall k :: 0 <= k < |s| ==> IsWhitespace(s[k])
  }

  /** Drops the leading whitespace: the result is the suffix from the first other character. */
  function TrimStart(s: string): (r: string)
    ensures |r| <= |s| && r == s[|s| - |r|..]
    ensures AllWhitespace(s[..|s| - |r|])
    ensures r != [] ==> !IsWhitespace(r[0])
    decreases |s|
  {
    if s != [] && IsWhitespace(s[0]) then TrimStart(s[1..]) else s
  }

  /** Drops the trailing whitespace: the result is the prefix up to the last other character. */
  function TrimEnd(s: string): (r: string)
    ensures |r| <= |s| && r == s[..|r|]
    ensures AllWhitespace(s[|r|..])
    ensures r != [] ==> !IsWhitespace(r[|r| - 1])
    decreases |s|
  {
    if s != [] && IsWhitespace(s[|s| - 1]) then TrimEnd(s[..|s| - 1]) else s
  }

  /** `s.trim()` */
  function Trim(s: string): string {
    TrimEnd(TrimStart(s))
  }

  /** `s.trim()` is a slice of `s` that neither starts nor ends with whitespace, and only whitespace was cut. */
  lemma TrimIsCore(s: string)
    ensures exists i, j ::
      (0 <= i <= j <= |s| && Trim(s) == s[i..j] && AllWhitespace(s[..i]) && AllWhitespace(s[j..]))
    ensures Trim(s) != [] ==> !IsWhitespace(Trim(s)[0]) && !IsWhitespace(Trim(s)[|Trim(s)| - 1])
  {
    var t := TrimStart(s);
    var e := TrimEnd(t);
    var i := |s| - |t|;
    var j := i + |e|;
    assert t == s[i..];
    assert e == t[..|e|];
    assert Trim(s) == s[i..j];
    assert AllWhitespace(s[..i]);
    assert s[j..] == t[|e|..];
    assert AllWhitespace(s[j..]);
  }

  /** `s.trim() === ''` exactly when `s` is all whitespace. */
  lemma TrimBlank(s: string)
    ensures Trim(s) == [] <==> AllWhitespace(s)
  {
    var t := TrimStart(s);
    if Trim(s) == [] {
      assert s == s[..|s| - |t|] + t;
      assert AllWhitespace(t) by { assert t[|TrimEnd(t)|..] == t; }
    }
    if AllWhitespace(s) {
      TrimStartOfBlank(s);
    }
  }

  lemma {:induction false} TrimStartOfBlank(s: string)
    requires AllWhitespace(s)
    ensures TrimStart(s) == []
    decreases |s|
  {
    if s != [] {
      TrimStartOfBlank(s[1..]);
    }
  }

  /** Trimming twice trims nothing more. */
  lemma TrimIdempotent(s: string)
    ensures Trim(Trim(s)) == Trim(s)
  {
    var t := Trim(s);
    TrimIsCore(s);
    if t != [] {
      assert TrimStart(t) == t;
      assert TrimEnd(t) == t;
    }
  }

  /** The separator characters of `s`, in order. */
  function Separators(s: string, seps: set<char>): (r: string)
    ensures |r| <= |s|
    ensures forall k :: 0 <= k < |r| ==> r[k] in seps
  {
    if s == [] then []
    else if s[0] in seps then [s[0]] + Separators(s[1..], seps)
    else Separators(s[1..], seps)
  }

  /** `s.split(c)` for every separator character `c` in `seps` (a regular-expression character class). */
  function Split(s: string, seps: set<char>): (parts: seq<string>)
    ensures |parts| == |Separators(s, seps)| + 1
    ensures forall i, k :: 0 <= i < |parts| && 0 <= k < |parts[i]| ==> parts[i][k] !in seps
  {
    if s == [] then [""]
    else
      var rest := Split(s[1..], seps);
      if s[0] in seps then [""] + rest
      else [[s[0]] + rest[0]] + rest[1..]
  }

  /** Puts the separators back between the parts: the inverse of `Split`. */
  function Interleave(parts: seq<string>, separators: string): string
    requires |parts| == |separators| + 1
  {
    if |separators| == 0 then parts[0]
    else parts[0] + [separators[0]] + Interleave(parts[1..], separators[1..])
  }

  /** Splitting loses nothing: the parts and the separators between them rebuild `s`. */
  lemma {:induction false} SplitRoundTrip(s: string, seps: set<char>)
    ensures Interleave(Split(s, seps), Separators(s, seps)) == s
    decreases |s|
  {
    if s != [] {
      SplitRoundTrip(s[1..], seps);
      var rest := Split(s[1..], seps);
      if s[0] !in seps {
        var sepsRest := Separators(s[1..], seps);
        if |sepsRest| > 0 {
          assert Split(s, seps)[1..] == rest[1..];
        }
      }
    }
  }

  /** Text without separators is one part. */
  lemma {:induction false} SplitWithoutSeparator(a: string, seps: set<char>)
    requires forall k :: 0 <= k < |a| ==> a[k] !in seps
    ensures Split(a, seps) == [a]
    decreases |a|
  {
    if a != [] {
      SplitWithoutSeparator(a[1..], seps);
      assert [a[0]] + a[1..] == a;
    }
  }

  /** The first part ends at the first separator, and the rest is split on its own. */
  lemma {:induction false} SplitAtFirst(a: string, c: char, b: string, seps: set<char>)
    requires forall k :: 0 <= k < |a| ==> a[k] !in seps
    requires c in seps
    ensures Split(a + [c] + b, seps) == [a] + Split(b, seps)
    decreases |a|
  {
    if a != [] {
      SplitAtFirst(a[1..], c, b, seps);
      assert (a + [c] + b)[1..] == a[1..] + [c] + b;
      assert [a[0]] + a[1..] == a;
    } else {
      assert a + [c] + b == [c] + b;
    }
  }

  /** The first part is the prefix of `s` that runs up to the first separator, or all of `s` when there is none. */
  lemma {:induction false} SplitHead(s: string, seps: set<char>)
    ensures Split(s, seps)[0] <= s
    ensures Split(s, seps)[0] == s || s[|Split(s, seps)[0]|] in seps
    decreases |s|
  {
    if s != [] && s[0] !in seps {
      SplitHead(s[1..], seps);
      var head := Split(s[1..], seps)[0];
      assert Split(s, seps)[0] == [s[0]] + head;
      assert s == [s[0]] + s[1..];
    }
  }
}
