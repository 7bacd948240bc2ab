/** String helpers the checklist relies on: JavaScript's notion of white
    space (used by `String.prototype.trim` and by the regular-expression
    class `\s`), trimming, lower-casing, the collapsing of white-space runs
    into hyphens, and the decimal rendering of a millisecond timestamp. */
module Text {
  import opened Seqs

  /** The WhiteSpace and LineTerminator code points of ECMAScript: exactly the
      characters `trim` strips and `\s` matches (tab, line feed, vertical tab,
      form feed and carriage return are the range U+0009..U+000D). */
  predicate IsWhitespace(c: char) {
    || '\t' <= c <= '\r'
    || c == ' ' || c == '\U{00A0}' || c == '\U{1680}'
    || '\U{2000}' <= c <= '\U{200A}'
    || c == '\U{2028}' || c == '\U{2029}' || c == '\U{202F}' || c == '\U{205F}'
    || c == '\U{3000}' || c == '\U{FEFF}'
  }

  predicate AllWhitespace(s: string) {
    forall i :: 0 <= i < |s| ==> IsWhitespace(s[i])
  }

  /** The length of the white-space run `s` starts with. */
  function LeadingSpace(s: string): (n: nat)
    ensures n <= |s|
    ensures forall i :: 0 <= i < n ==> IsWhitespace(s[i])
    ensures n < |s| ==> !IsWhitespace(s[n])
  {
    if s != [] && IsWhitespace(s[0]) then 1 + LeadingSpace(s[1..]) else 0
  }

  /** The index at which the white-space run `s` ends with begins. */
  function TrailingStart(s: string): (n: nat)
    ensures n <= |s|
    ensures forall i :: n <= i < |s| ==> IsWhitespace(s[i])
    ensures n > 0 ==> !IsWhitespace(s[n - 1])
  {
    if s != [] && IsWhitespace(s[|s| - 1]) then TrailingStart(s[..|s| - 1]) else |s|
  }

  /** `s.trim()`: the slice of `s` left after removing the maximal white-space
      prefix and the maximal white-space suffix. It is empty exactly when `s`
      is all white space (the case in which JavaScript's `s.trim()` is falsy). */
  function Trim(s: string): (r: string)
    ensures var a := LeadingSpace(s);
      && a + |r| <= |s| && r == s[a..a + |r|]
      && forall i :: a + |r| <= i < |s| ==> IsWhitespace(s[i])
    ensures r != [] ==> !IsWhitespace(r[0]) && !IsWhitespace(r[|r| - 1])
    ensures r == [] <==> AllWhitespace(s)
  {
    var a := LeadingSpace(s);
    var b := a + TrailingStart(s[a..]);
    assert forall i :: b <= i < |s| ==> s[i] == s[a..][i - a];
    assert b > a ==> s[b - 1] == s[a..][b - 1 - a];
    s[a..b]
  }

  /** JavaScript's `toLowerCase` on one character, for the ASCII letters;
      every other character is returned unchanged. */
  function LowerChar(c: char): (d: char)
    ensures !('A' <= d <= 'Z')
    ensures IsWhitespace(d) <==> IsWhitespace(c)
    ensures !('A' <= c <= 'Z') ==> d == c
  {
    if 'A' <= c <= 'Z' then (c as int + ('a' as int - 'A' as int)) as char else c
  }

  function Lower(s: string): (r: string)
    ensures |r| == |s|
    ensures forall i :: 0 <= i < |s| ==> r[i] == LowerChar(s[i])
  {
    if s == [] then [] else [LowerChar(s[0])] + Lower(s[1..])
  }

  predicate HasNoUpper(s: string) {
    forall i :: 0 <= i < |s| ==> !('A' <= s[i] <= 'Z')
  }

  lemma LowerIdempotent(s: string)
    ensures HasNoUpper(Lower(s))
    ensures Lower(Lower(s)) == Lower(s)
  {
    var l := Lower(s);
    assert forall i :: 0 <= i < |l| ==> Lower(l)[i] == l[i];
  }

  lemma {:induction false} LowerOfLowerCaseIsIdentity(s: string)
    requires HasNoUpper(s)
    ensures Lower(s) == s
  {
    if s != [] {
      LowerOfLowerCaseIsIdentity(s[1..]);
    }
  }

  /** `s.replace(/\s+/g, "-")`: each maximal run of white space becomes one
      hyphen, every other character is kept. */
  function HyphenateRuns(s: string): (r: string)
    ensures |r| <= |s|
    ensures r == [] <==> s == []
    decreases |s|
  {
    if s == [] then []
    else if IsWhitespace(s[0]) then "-" + HyphenateRuns(s[LeadingSpace(s)..])
    else [s[0]] + HyphenateRuns(s[1..])
  }

  /** No white space survives the replacement. */
  lemma {:induction false} HyphenateRemovesWhitespace(s: string)
    ensures forall i :: 0 <= i < |HyphenateRuns(s)| ==> !IsWhitespace(HyphenateRuns(s)[i])
    decreases |s|
  {
    if s != [] {
      if IsWhitespace(s[0]) {
        HyphenateRemovesWhitespace(s[LeadingSpace(s)..]);
      } else {
        HyphenateRemovesWhitespace(s[1..]);
      }
    }
  }

  /** A string without white space is left as it is. */
  lemma {:induction false} HyphenateWithoutWhitespace(s: string)
    requires forall i :: 0 <= i < |s| ==> !IsWhitespace(s[i])
    ensures HyphenateRuns(s) == s
  {
    if s != [] {
      HyphenateWithoutWhitespace(s[1..]);
    }
  }

  /** The defining property of the replacement: a non-empty run `w` of white
      space between a part that does not end in white space and a part that
      does not start with white space is replaced by exactly one hyphen. */
  lemma HyphenateJoin(x: string, w: string, y: string)
    requires w != [] && AllWhitespace(w)
    requires x != [] ==> !IsWhitespace(x[|x| - 1])
    requires y != [] ==> !IsWhitespace(y[0])
    ensures HyphenateRuns(x + w + y) == HyphenateRuns(x) + "-" + HyphenateRuns(y)
  {
    Regroup(x, w, y);
    HyphenateAppend(x, w + y);
    HyphenateRun(w, y);
    Regroup(HyphenateRuns(x), "-", HyphenateRuns(y));
  }


  /** Cutting after a character that is not white space cuts no run, so the
      two parts are replaced independently. */
  lemma {:induction false} HyphenateAppend(x: string, y: string)
    requires x != [] ==> !IsWhitespace(x[|x| - 1])
    ensures HyphenateRuns(x + y) == HyphenateRuns(x) + HyphenateRuns(y)
    decreases |x|, 1
  {
    if x == [] {
      assert x + y == y;
    } else if IsWhitespace(x[0]) {
      AppendAfterSpace(x, y);
    } else {
      AppendAfterChar(x, y);
    }
  }

  lemma {:induction false} AppendAfterSpace(x: string, y: string)
    requires x != [] && IsWhitespace(x[0]) && !IsWhitespace(x[|x| - 1])
    ensures HyphenateRuns(x + y) == HyphenateRuns(x) + HyphenateRuns(y)
    decreases |x|, 0
  {
    LeadingSpaceBeforeEnd(x);
    var x' := x[LeadingSpace(x)..];
    assert x'[|x'| - 1] == x[|x| - 1];
    RunsAtSpacePrefix(x, y);
    HyphenateAppend(x', y);
    RunsAtSpace(x);
    Regroup("-", HyphenateRuns(x'), HyphenateRuns(y));
  }

  /** A string that ends in a character that is not white space does not
      consist of its leading run alone. */
  lemma LeadingSpaceBeforeEnd(x: string)
    requires x != [] && !IsWhitespace(x[|x| - 1])
    ensures LeadingSpace(x) < |x|
  {
  }

  lemma {:induction false} AppendAfterChar(x: string, y: string)
    requires x != [] && !IsWhitespace(x[0]) && !IsWhitespace(x[|x| - 1])
    ensures HyphenateRuns(x + y) == HyphenateRuns(x) + HyphenateRuns(y)
    decreases |x|, 0
  {
    assert |x| > 1 ==> x[1..][|x| - 2] == x[|x| - 1];
    RunsAtCharPrefix(x, y);
    HyphenateAppend(x[1..], y);
    RunsAtChar(x);
    Regroup([x[0]], HyphenateRuns(x[1..]), HyphenateRuns(y));
  }

  /** A whole white-space run at the front becomes one hyphen. */
  lemma HyphenateRun(w: string, y: string)
    requires w != [] && AllWhitespace(w)
    requires y != [] ==> !IsWhitespace(y[0])
    ensures HyphenateRuns(w + y) == "-" + HyphenateRuns(y)
  {
    LeadingSpaceOfRun(w, y);
    assert (w + y)[|w|..] == y;
    RunsAtSpace(w + y);
  }

  /** The leading run of `x` is also the leading run of `x + z`, so one step of
      the replacement consumes it and leaves the rest of `x` followed by `z`. */
  lemma RunsAtSpacePrefix(x: string, z: string)
    requires x != [] && IsWhitespace(x[0]) && !IsWhitespace(x[|x| - 1])
    ensures HyphenateRuns(x + z) == "-" + HyphenateRuns(x[LeadingSpace(x)..] + z)
  {
    assert !AllWhitespace(x) by { assert !IsWhitespace(x[|x| - 1]); }
    LeadingSpacePrefix(x, z);
    var s, n := x + z, LeadingSpace(x);
    assert s[n..] == x[n..] + z;
    RunsAtSpace(s);
  }

  /** One step of the replacement at a leading character of `x + z` that is
      not white space. */
  lemma RunsAtCharPrefix(x: string, z: string)
    requires x != [] && !IsWhitespace(x[0])
    ensures HyphenateRuns(x + z) == [x[0]] + HyphenateRuns(x[1..] + z)
  {
    var s := x + z;
    assert s[0] == x[0] && s[1..] == x[1..] + z;
    RunsAtChar(s);
  }

  /** One step of the replacement at a leading white-space run. */
  lemma RunsAtSpace(s: string)
    requires s != [] && IsWhitespace(s[0])
    ensures HyphenateRuns(s) == "-" + HyphenateRuns(s[LeadingSpace(s)..])
  {
  }

  /** One step of the replacement at a leading non-white-space character. */
  lemma RunsAtChar(s: string)
    requires s != [] && !IsWhitespace(s[0])
    ensures HyphenateRuns(s) == [s[0]] + HyphenateRuns(s[1..])
  {
  }

  /** The leading run of `x + z` lies inside `x` when `x` is not all white space. */
  lemma {:induction false} LeadingSpacePrefix(x: string, z: string)
    requires !AllWhitespace(x)
    ensures LeadingSpace(x + z) == LeadingSpace(x)
  {
    if IsWhitespace(x[0]) {
      assert (x + z)[1..] == x[1..] + z;
      assert !AllWhitespace(x[1..]) by {
        var i :| 0 <= i < |x| && !IsWhitespace(x[i]);
        assert x[1..][i - 1] == x[i];
      }
      LeadingSpacePrefix(x[1..], z);
    }
  }

  /** The leading run of `w + y` is all of the white-space string `w` when `y`
      does not start with white space. */
  lemma {:induction false} LeadingSpaceOfRun(w: string, y: string)
    requires AllWhitespace(w)
    requires y != [] ==> !IsWhitespace(y[0])
    ensures LeadingSpace(w + y) == |w|
  {
    if w != [] {
      assert (w + y)[1..] == w[1..] + y;
      LeadingSpaceOfRun(w[1..], y);
    } else {
      assert w + y == y;
    }
  }

  /** The id a category gets from its name:
      `name.toLowerCase().replace(/\s+/g, "-")`. */
  function Slug(name: string): (id: string)
    ensures forall i :: 0 <= i < |id| ==> !IsWhitespace(id[i]) && !('A' <= id[i] <= 'Z')
    ensures id == [] <==> name == []
    ensures |id| <= |name|
  {
    var l := Lower(name);
    LowerIdempotent(name);
    var id := HyphenateRuns(l);
    HyphenateRemovesWhitespace(l);
    HyphenateKeepsNoUpper(l);
    id
  }

  lemma {:induction false} HyphenateKeepsNoUpper(s: string)
    requires HasNoUpper(s)
    ensures HasNoUpper(HyphenateRuns(s))
    decreases |s|
  {
    if s != [] {
      if IsWhitespace(s[0]) {
        HyphenateKeepsNoUpper(s[LeadingSpace(s)..]);
      } else {
        HyphenateKeepsNoUpper(s[1..]);
      }
    }
  }

  /** Names that differ only in the case of ASCII letters get the same id. */
  lemma SlugIgnoresCase(name: string)
    ensures Slug(Lower(name)) == Slug(name)
  {
    LowerIdempotent(name);
  }

  /** An id is its own id: deriving twice changes nothing. */
  lemma SlugIdempotent(name: string)
    ensures Slug(Slug(name)) == Slug(name)
  {
    var id := Slug(name);
    LowerOfLowerCaseIsIdentity(id);
    HyphenateWithoutWhitespace(id);
  }

  /** The example name "Snacks" gets the id "snacks". */
  lemma SlugOfOneWord()
    ensures Slug("Snacks") == "snacks"
  {
    var s, t := "Snacks", "snacks";
    assert LowerChar(s[0]) == t[0];
    LowerExample(s, t);
    NoWhitespaceExample(t);
    HyphenateWithoutWhitespace(t);
  }

  lemma LowerExample(s: string, t: string)
    requires |s| == |t| && forall i :: 0 <= i < |s| ==> LowerChar(s[i]) == t[i]
    ensures Lower(s) == t
  {
  }

  lemma NoWhitespaceExample(s: string)
    requires forall i :: 0 <= i < |s| ==> 'a' <= s[i] <= 'z'
    ensures forall i :: 0 <= i < |s| ==> !IsWhitespace(s[i])
  {
  }

  /** The decimal digit for `d`. */
  function Digit(d: nat): (c: char)
    requires d < 10
    ensures '0' <= c <= '9'
  {
    ('0' as int + d) as char
  }

  predicate IsDigitString(s: string) {
    forall i :: 0 <= i < |s| ==> '0' <= s[i] <= '9'
  }

  /** `n.toString()` for a non-negative integer such as `Date.now()`: its
      decimal digits, without leading zeros. */
  function DecimalString(n: nat): (r: string)
    ensures r != [] && IsDigitString(r)
    ensures r[0] == '0' ==> r == "0"
    ensures r == "0" <==> n == 0
  {
    if n < 10 then [Digit(n)] else DecimalString(n / 10) + [Digit(n % 10)]
  }

  /** The value of a string of decimal digits. */
  function DecimalValue(s: string): nat
    requires IsDigitString(s)
  {
    if s == [] then 0 else DecimalValue(s[..|s| - 1]) * 10 + (s[|s| - 1] as int - '0' as int)
  }

  /** Reading the rendered digits back gives the timestamp again. */
  lemma {:induction false} DecimalRoundTrip(n: nat)
    ensures DecimalValue(DecimalString(n)) == n
  {
    if n >= 10 {
      var s := DecimalString(n);
      assert s[..|s| - 1] == DecimalString(n / 10);
      DecimalRoundTrip(n / 10);
    }
  }

  /** Distinct timestamps give distinct ids. */
  lemma DecimalStringInjective(n: nat, m: nat)
    requires n != m
    ensures DecimalString(n) != DecimalString(m)
  {
    DecimalRoundTrip(n);
    DecimalRoundTrip(m);
  }
}
