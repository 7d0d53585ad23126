/** The JavaScript string operations the server relies on: `indexOf` and
    `lastIndexOf` of a single character, `Array.prototype.join`, and
    `String.prototype.trim`.  A JavaScript string is modelled as a `string`
    (a sequence of characters). */
module JsStrings {

  /** `s.indexOf(c)`: the first position of `c` in `s`, or -1. */
  function IndexOf(s: string, c: char): (r: int)
    ensures -1 <= r < |s|
    ensures r == -1 <==> c !in s
    ensures 0 <= r ==> s[r] == c
    ensures forall k :: 0 <= k < r ==> s[k] != c
    decreases |s|
  {
    if |s| == 0 then -1
    else if s[0] == c then 0
    else
      var k := IndexOf(s[1..], c);
      if k == -1 then -1 else k + 1
  }

  /** `s.lastIndexOf(c)`: the last position of `c` in `s`, or -1. */
  function LastIndexOf(s: string, c: char): (r: int)
    ensures -1 <= r < |s|
    ensures r == -1 <==> c !in s
    ensures 0 <= r ==> s[r] == c
    ensures forall k :: r < k < |s| ==> s[k] != c
    decreases |s|
  {
    if |s| == 0 then -1
    else if s[|s| - 1] == c then |s| - 1
    else LastIndexOf(s[..|s| - 1], c)
  }

  /** `parts.join(sep)`: the parts with `sep` between neighbours. */
  function Join(parts: seq<string>, sep: string): (r: string)
    ensures |parts| == 0 ==> r == ""
    ensures |parts| == 1 ==> r == parts[0]
    ensures |parts| >= 1 ==> |parts[0]| <= |r| && r[..|parts[0]|] == parts[0]
  {
    if |parts| == 0 then ""
    else if |parts| == 1 then parts[0]
    else parts[0] + sep + Join(parts[1..], sep)
  }

  /** Splits a string at every occurrence of the two-character separator
      "; " (the separator the server joins improvement areas with); the
      partner of `Join(_, "; ")`. */
  function SplitSemicolon(s: string): (parts: seq<string>)
    ensures |parts| >= 1
    decreases |s|
  {
    if |s| < 2 then [s]
    else if s[0] == ';' && s[1] == ' ' then [""] + SplitSemicolon(s[2..])
    else
      var rest := SplitSemicolon(s[1..]);
      [[s[0]] + rest[0]] + rest[1..]
  }

  lemma {:induction false} SplitWithoutSemicolon(x: string)
    requires ';' !in x
    ensures SplitSemicolon(x) == [x]
    decreases |x|
  {
    if |x| >= 2 {
      assert x[0] != ';';
      assert ';' !in x[1..];
      SplitWithoutSemicolon(x[1..]);
      assert [x[0]] + x[1..] == x;
    }
  }

  lemma {:induction false} SplitAfterPart(x: string, rest: string)
    requires ';' !in x
    ensures SplitSemicolon(x + "; " + rest) == [x] + SplitSemicolon(rest)
    decreases |x|
  {
    var s := x + "; " + rest;
    if |x| == 0 {
      assert s == "; " + rest;
      assert s[2..] == rest;
    } else {
      assert x[0] != ';';
      assert ';' !in x[1..];
      assert s[1..] == x[1..] + "; " + rest;
      SplitAfterPart(x[1..], rest);
      assert [x[0]] + x[1..] == x;
    }
  }

  /** Joining with "; " and splitting again gives back the parts, provided
      no part contains a semicolon and there is at least one part. */
  lemma {:induction false} SplitJoinRoundTrip(parts: seq<string>)
    requires |parts| >= 1
    requires forall i :: 0 <= i < |parts| ==> ';' !in parts[i]
    ensures SplitSemicolon(Join(parts, "; ")) == parts
    decreases |parts|
  {
    if |parts| == 1 {
      SplitWithoutSemicolon(parts[0]);
    } else {
      SplitJoinRoundTrip(parts[1..]);
      SplitAfterPart(parts[0], Join(parts[1..], "; "));
      assert [parts[0]] + parts[1..] == parts;
    }
  }

  /** `t` occurs in `s` starting at position `k`. */
  ghost predicate OccursAt(s: string, t: string, k: int) {
    0 <= k && k + |t| <= |s| && s[k..k + |t|] == t
  }

  /** Every part occurs in the joined string. */
  lemma {:induction false} JoinContainsParts(parts: seq<string>, sep: string, i: nat)
    requires i < |parts|
    ensures exists k :: OccursAt(Join(parts, sep), parts[i], k)
    decreases |parts|
  {
    var r := Join(parts, sep);
    if i == 0 {
      assert OccursAt(r, parts[0], 0);
    } else {
      JoinContainsParts(parts[1..], sep, i - 1);
      var rest := Join(parts[1..], sep);
      assert parts[1..][i - 1] == parts[i];
      var k :| OccursAt(rest, parts[i], k);
      var off := |parts[0]| + |sep|;
      assert r == parts[0] + sep + rest;
      assert r[off + k..off + k + |parts[i]|] == rest[k..k + |parts[i]|];
      assert OccursAt(r, parts[i], off + k);
    }
  }

  /** The characters `String.prototype.trim` removes: ECMAScript's
      WhiteSpace (TAB, VT, FF, ZWNBSP and the Unicode space separators) and
      LineTerminator (LF, CR, LS, PS). */
  predicate IsJsWhitespace(c: char) {
    var n := c as int;
    n == 0x09 || n == 0x0A || n == 0x0B || n == 0x0C || n == 0x0D
    || n == 0x20 || n == 0xA0 || n == 0x1680
    || (0x2000 <= n <= 0x200A)
    || n == 0x2028 || n == 0x2029 || n == 0x202F || n == 0x205F
    || n == 0x3000 || n == 0xFEFF
  }

  predicate AllWhitespace(s: string) {
    forall i :: 0 <= i < |s| ==> IsJsWhitespace(s[i])
  }

  /** Removes leading whitespace: the result is the longest suffix of `s`
      that does not start with whitespace, and what was removed is all
      whitespace. */
  function TrimStart(s: string): (r: string)
    ensures |r| <= |s| && r == s[|s| - |r|..]
    ensures forall i :: 0 <= i < |s| - |r| ==> IsJsWhitespace(s[i])
    ensures r == "" || !IsJsWhitespace(r[0])
    decreases |s|
  {
    if |s| > 0 && IsJsWhitespace(s[0]) then
      var r := TrimStart(s[1..]);
      assert forall i :: 1 <= i < |s| - |r| ==> s[i] == s[1..][i - 1];
      r
    else s
  }

  /** Removes trailing whitespace: the result is the longest prefix of `s`
      that does not end with whitespace, and what was removed is all
      whitespace. */
  function TrimEnd(s: string): (r: string)
    ensures |r| <= |s| && r == s[..|r|]
    ensures forall i :: |r| <= i < |s| ==> IsJsWhitespace(s[i])
    ensures r == "" || !IsJsWhitespace(r[|r| - 1])
    decreases |s|
  {
    if |s| > 0 && IsJsWhitespace(s[|s| - 1]) then
      var r := TrimEnd(s[..|s| - 1]);
      assert forall i :: |r| <= i < |s| - 1 ==> s[i] == s[..|s| - 1][i];
      r
    else s
  }

  /** `s.trim()`. */
  function Trim(s: string): (r: string)
    ensures exists k :: OccursAt(s, r, k) && AllWhitespace(s[..k]) && AllWhitespace(s[k + |r|..])
    ensures r == "" || (!IsJsWhitespace(r[0]) && !IsJsWhitespace(r[|r| - 1]))
  {
    var t := TrimStart(s);
    var r := TrimEnd(t);
    TrimParts(s, t, r);
    r
  }

  /** The pieces `Trim` removes: the whitespace before the suffix `t` and
      the whitespace after the prefix `r` of `t`. */
  lemma TrimParts(s: string, t: string, r: string)
    requires |t| <= |s| && t == s[|s| - |t|..]
    requires forall i :: 0 <= i < |s| - |t| ==> IsJsWhitespace(s[i])
    requires |r| <= |t| && r == t[..|r|]
    requires forall i :: |r| <= i < |t| ==> IsJsWhitespace(t[i])
    ensures var k := |s| - |t|;
      OccursAt(s, r, k) && AllWhitespace(s[..k]) && AllWhitespace(s[k + |r|..])
  {
    var k := |s| - |t|;
    assert s[k..k + |r|] == t[..|r|];
    var before := s[..k];
    forall i | 0 <= i < |before| ensures IsJsWhitespace(before[i]) {
      assert before[i] == s[i];
    }
    var after := s[k + |r|..];
    forall i | 0 <= i < |after| ensures IsJsWhitespace(after[i]) {
      assert after[i] == t[|r| + i];
    }
  }


  lemma {:induction false} TrimStartSkips(w: string, x: string)
    requires AllWhitespace(w)
    ensures TrimStart(w + x) == TrimStart(x)
    decreases |w|
  {
    if |w| > 0 {
      assert IsJsWhitespace(w[0]) && (w + x)[0] == w[0];
      assert (w + x)[1..] == w[1..] + x;
      assert AllWhitespace(w[1..]) by {
        forall i | 0 <= i < |w[1..]| ensures IsJsWhitespace(w[1..][i]) {
          assert w[1..][i] == w[i + 1];
        }
      }
      TrimStartSkips(w[1..], x);
      assert TrimStart(w + x) == TrimStart((w + x)[1..]);
    } else {
      assert w + x == x;
    }
  }

  lemma {:induction false} TrimEndSkips(x: string, w: string)
    requires AllWhitespace(w)
    ensures TrimEnd(x + w) == TrimEnd(x)
    decreases |w|
  {
    if |w| > 0 {
      var v := w[..|w| - 1];
      assert IsJsWhitespace(w[|w| - 1]) && (x + w)[|x + w| - 1] == w[|w| - 1];
      assert (x + w)[..|x + w| - 1] == x + v;
      assert AllWhitespace(v) by {
        forall i | 0 <= i < |v| ensures IsJsWhitespace(v[i]) {
          assert v[i] == w[i];
        }
      }
      TrimEndSkips(x, v);
      assert TrimEnd(x + w) == TrimEnd((x + w)[..|x + w| - 1]);
    } else {
      assert x + w == x;
    }
  }

  /** Trimming whitespace around a text that begins and ends with a
      non-whitespace character gives back exactly that text. */
  lemma TrimAround(front: string, m: string, back: string)
    requires AllWhitespace(front) && AllWhitespace(back)
    requires |m| > 0 && !IsJsWhitespace(m[0]) && !IsJsWhitespace(m[|m| - 1])
    ensures Trim(front + m + back) == m
  {
    assert front + m + back == front + (m + back);
    TrimStartSkips(front, m + back);
    assert (m + back)[0] == m[0];
    assert TrimStart(m + back) == m + back;
    TrimEndSkips(m, back);
  }
}
