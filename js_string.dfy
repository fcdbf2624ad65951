/** The few JavaScript string operations the page relies on: `trim`,
    `toLowerCase` (ASCII letters only), `includes` and `replace` with a
    string pattern, together with the first-occurrence search that
    ECMAScript defines the last two by (StringIndexOf). A JavaScript string is a `string` here,
    one `char` per element. */
module JsString {
  import opened Util

  /** The characters `String.prototype.trim` removes: the ECMAScript
      WhiteSpace (tab, vertical tab, form feed, space, no-break space,
      byte-order mark and every space separator) and LineTerminator
      (line feed, carriage return, line and paragraph separators) sets. */
  predicate IsJsWhitespace(c: char) {
    || c == '\t' || c == '\n' || c == '\U{000B}' || c == '\U{000C}' || c == '\r'
    || c == ' ' || c == '\U{00A0}' || c == '\U{1680}'
    || ('\U{2000}' <= c <= '\U{200A}')
    || c == '\U{2028}' || c == '\U{2029}' || c == '\U{202F}' || c == '\U{205F}'
    || c == '\U{3000}' || c == '\U{FEFF}'
  }

  predicate AllWhitespace(s: string) {
    forall i :: 0 <= i < |s| ==> IsJsWhitespace(s[i])
  }

  /** Drops the leading whitespace: the result is the suffix of `s` that
      starts at its first non-whitespace character. */
  function TrimStart(s: string): (r: string)
    ensures |r| <= |s| && r == s[|s| - |r|..]
    ensures AllWhitespace(s[..|s| - |r|])
    ensures r == [] || !IsJsWhitespace(r[0])
  {
    if s != [] && IsJsWhitespace(s[0]) then
      var r := TrimStart(s[1..]);
      TrimStartStep(s, r);
      r
    else s
  }

  /** Drops the trailing whitespace: the result is the prefix of `s` that
      ends at its last non-whitespace character. */
  function TrimEnd(s: string): (r: string)
    ensures |r| <= |s| && r == s[..|r|]
    ensures AllWhitespace(s[|r|..])
    ensures r == [] || !IsJsWhitespace(r[|r| - 1])
  {
    if s != [] && IsJsWhitespace(s[|s| - 1]) then
      var r := TrimEnd(s[..|s| - 1]);
      TrimEndStep(s, r);
      r
    else s
  }

  /** A whitespace character in front keeps `r` a suffix of `s` after whitespace. */
  lemma TrimStartStep(s: string, r: string)
    requires s != [] && IsJsWhitespace(s[0])
    requires |r| <= |s[1..]| && r == s[1..][|s[1..]| - |r|..] && AllWhitespace(s[1..][..|s[1..]| - |r|])
    ensures |r| <= |s| && r == s[|s| - |r|..] && AllWhitespace(s[..|s| - |r|])
  {
    assert s[..|s| - |r|] == [s[0]] + s[1..][..|s[1..]| - |r|];
    WhitespaceConcat([s[0]], s[1..][..|s[1..]| - |r|]);
  }

  /** A whitespace character at the back keeps `r` a prefix of `s` before whitespace. */
  lemma TrimEndStep(s: string, r: string)
    requires s != [] && IsJsWhitespace(s[|s| - 1])
    requires |r| <= |s| - 1 && r == s[..|s| - 1][..|r|] && AllWhitespace(s[..|s| - 1][|r|..])
    ensures |r| <= |s| && r == s[..|r|] && AllWhitespace(s[|r|..])
  {
    assert s[|r|..] == s[..|s| - 1][|r|..] + [s[|s| - 1]];
    WhitespaceConcat(s[..|s| - 1][|r|..], [s[|s| - 1]]);
  }

  /** `r` is the slice of `s` at offset `k`, with only whitespace around it. */
  ghost predicate Strips(s: string, r: string, k: nat) {
    k + |r| <= |s| && s[k..k + |r|] == r
    && AllWhitespace(s[..k]) && AllWhitespace(s[k + |r|..])
  }

  /** `String.prototype.trim`: the slice of `s` left after removing
      whitespace at both ends; it is empty exactly when `s` is all
      whitespace, and otherwise starts and ends with a non-whitespace character. */
  function Trim(s: string): (r: string)
    ensures Strips(s, r, |s| - |TrimStart(s)|)
    ensures r == [] <==> AllWhitespace(s)
    ensures r == [] || (!IsJsWhitespace(r[0]) && !IsJsWhitespace(r[|r| - 1]))
  {
    var t := TrimStart(s);
    TrimSlice(s, t, TrimEnd(t));
    TrimEnd(t)
  }

  /** Trimming the start then the end leaves a slice of `s` with only
      whitespace around it, and an empty slice only for all-whitespace `s`. */
  lemma TrimSlice(s: string, t: string, r: string)
    requires |t| <= |s| && t == s[|s| - |t|..] && AllWhitespace(s[..|s| - |t|])
    requires |r| <= |t| && r == t[..|r|] && AllWhitespace(t[|r|..])
    requires r != [] ==> !IsJsWhitespace(t[0])
    ensures Strips(s, r, |s| - |t|)
    ensures r == [] <==> AllWhitespace(s)
  {
    var k := |s| - |t|;
    assert s[k..k + |r|] == t[..|r|];
    assert s[k + |r|..] == t[|r|..];
    if r == [] {
      WhitespaceConcat(s[..k], t);
      assert s == s[..k] + t;
    } else {
      assert !IsJsWhitespace(s[k]);
    }
  }

  lemma WhitespaceConcat(a: string, b: string)
    requires AllWhitespace(a) && AllWhitespace(b)
    ensures AllWhitespace(a + b)
  {
    forall i | 0 <= i < |a + b| ensures IsJsWhitespace((a + b)[i]) {
      if i >= |a| { assert (a + b)[i] == b[i - |a|]; }
    }
  }

  /** `toLowerCase` on one character, for the ASCII letters only. */
  function LowerChar(c: char): char {
    if 'A' <= c <= 'Z' then (c as int + 32) as char else c
  }

  /** `s` holds no ASCII upper-case letter. */
  predicate NoAsciiUpper(s: string) {
    forall i :: 0 <= i < |s| ==> !('A' <= s[i] <= 'Z')
  }

  /** `toLowerCase`: every ASCII upper-case letter becomes its lower-case
      form and every other character is kept. */
  function ToLower(s: string): (r: string)
    ensures |r| == |s|
    ensures NoAsciiUpper(r)
    ensures forall i :: 0 <= i < |s| && !('A' <= s[i] <= 'Z') ==> r[i] == s[i]
    ensures forall i :: 0 <= i < |s| && 'A' <= s[i] <= 'Z' ==> r[i] as int == s[i] as int + 32
  {
    seq(|s|, i requires 0 <= i < |s| => LowerChar(s[i]))
  }

  /** Trimming only removes characters, so it adds no upper-case letter. */
  lemma TrimNoAsciiUpper(s: string)
    requires NoAsciiUpper(s)
    ensures NoAsciiUpper(Trim(s))
  {
    var r := Trim(s);
    var k := |s| - |TrimStart(s)|;
    assert Strips(s, r, k);
    SliceNoAsciiUpper(s, k, k + |r|);
  }

  lemma SliceNoAsciiUpper(s: string, lo: nat, hi: nat)
    requires lo <= hi <= |s| && NoAsciiUpper(s)
    ensures NoAsciiUpper(s[lo..hi])
  {
    forall i | 0 <= i < hi - lo ensures !('A' <= s[lo..hi][i] <= 'Z') {
      assert s[lo..hi][i] == s[lo + i];
    }
  }

  /** `p` occurs in `s` starting at index `k`. */
  predicate OccursAt(s: string, p: string, k: nat) {
    k + |p| <= |s| && s[k..k + |p|] == p
  }

  /** ECMAScript's StringIndexOf(s, p, from) for a start position within
      `s`: the first index at or after `from` where `p` occurs. */
  function IndexOfFrom(s: string, p: string, from: nat): (r: Option<nat>)
    requires from <= |s|
    decreases |s| - from
    ensures r.Some? ==> from <= r.value && OccursAt(s, p, r.value)
    ensures r.Some? ==> forall j: nat :: from <= j < r.value ==> !OccursAt(s, p, j)
    ensures r.None? ==> forall j: nat :: from <= j ==> !OccursAt(s, p, j)
  {
    if from + |p| > |s| then None
    else if s[from..from + |p|] == p then Some(from)
    else IndexOfFrom(s, p, from + 1)
  }

  /** The first occurrence of `p` in `s`: the search behind `includes`
      and behind `replace` with a string pattern. */
  function IndexOf(s: string, p: string): (r: Option<nat>)
    ensures r.Some? ==> OccursAt(s, p, r.value)
    ensures r.Some? ==> forall j: nat :: j < r.value ==> !OccursAt(s, p, j)
    ensures r.None? <==> forall j: nat :: !OccursAt(s, p, j)
  {
    IndexOfFrom(s, p, 0)
  }

  /** `s.includes(p)`: `p` occurs somewhere in `s`. */
  function Includes(s: string, p: string): (b: bool)
    ensures b <==> exists k: nat :: OccursAt(s, p, k)
  {
    IndexOf(s, p).Some?
  }

  /** An occurrence of `q` inside an occurrence of `p` is an occurrence in `s`. */
  lemma {:induction false} OccursWithin(s: string, p: string, q: string, k: nat, m: nat)
    requires OccursAt(s, p, k) && OccursAt(p, q, m)
    ensures OccursAt(s, q, k + m)
  {
    forall i | 0 <= i < |q| ensures s[k + m + i] == q[i] {
      assert s[k..k + |p|][m + i] == p[m + i];
      assert p[m..m + |q|][i] == q[i];
    }
    assert s[k + m..k + m + |q|] == q;
  }

  /** `includes` is transitive: a string containing `p` contains everything `p` contains. */
  lemma IncludesTransitive(s: string, p: string, q: string)
    requires Includes(s, p) && Includes(p, q)
    ensures Includes(s, q)
  {
    var k: nat :| OccursAt(s, p, k);
    var m: nat :| OccursAt(p, q, m);
    OccursWithin(s, p, q, k, m);
  }

  /** `s.replace(pat, rep)` with a string pattern and a replacement taken
      literally: only the FIRST occurrence of `pat` is replaced, and `s` is
      returned unchanged when there is none. */
  function ReplaceFirst(s: string, pat: string, rep: string): (r: string)
    ensures (forall k: nat :: !OccursAt(s, pat, k)) ==> r == s
    ensures forall k: nat :: OccursAt(s, pat, k) && (forall j: nat :: j < k ==> !OccursAt(s, pat, j)) ==>
              r == s[..k] + rep + s[k + |pat|..]
  {
    match IndexOf(s, pat)
    case None => s
    case Some(k) =>
      FirstOccurrenceUnique(s, pat, k);
      s[..k] + rep + s[k + |pat|..]
  }

  /** Only one occurrence can have none before it. */
  lemma FirstOccurrenceUnique(s: string, pat: string, k: nat)
    requires OccursAt(s, pat, k) && forall j: nat :: j < k ==> !OccursAt(s, pat, j)
    ensures forall k': nat :: OccursAt(s, pat, k') && (forall j: nat :: j < k' ==> !OccursAt(s, pat, j)) ==> k' == k
  {
  }

  /** Removing a leading `pat` gives back what followed it. */
  lemma RemoveLeading(pat: string, t: string)
    ensures ReplaceFirst(pat + t, pat, "") == t
  {
    var s := pat + t;
    assert OccursAt(s, pat, 0) by { assert s[..|pat|] == pat; }
    assert s[|pat|..] == t;
  }
}
