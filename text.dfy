/**
 * The three JavaScript string operations the chat send handler relies on:
 * `String.prototype.trim` (the empty-input guard), `String.prototype.toLowerCase`
 * (before keyword matching) and a regular-expression search for a word between
 * two `\b` assertions.
 */
module Text {
  import opened Wrappers

  // ---------------------------------------------------------------------------
  // Trimming
  // ---------------------------------------------------------------------------

  /**
   * The characters `trim` strips: WhiteSpace and LineTerminator of ECMAScript
   * (section 12.2 and 12.3 of ECMA-262), with the space separators of Unicode 15.
   */
  predicate IsSpace(c: char) {
    c == '\t' || c == '\n' || c == '\U{000B}' || c == '\U{000C}' || c == '\r'
    || c == ' ' || c == '\U{00A0}' || c == '\U{1680}'
    || ('\U{2000}' <= c <= '\U{200A}')
    || c == '\U{2028}' || c == '\U{2029}' || c == '\U{202F}' || c == '\U{205F}'
    || c == '\U{3000}' || c == '\U{FEFF}'
  }

  /** Every character of `s` is white space (true of the empty string). */
  predicate IsBlank(s: string) {
    forall i | 0 <= i < |s| :: IsSpace(s[i])
  }

  /** Drops the leading white space: what remains is a suffix of `s` that starts with a non-space. */
  function TrimStart(s: string): (r: string)
    ensures |r| <= |s| && r == s[|s| - |r|..]
    ensures IsBlank(s[..|s| - |r|])
    ensures r == [] || !IsSpace(r[0])
  {
    if s != [] && IsSpace(s[0]) then
      var r := TrimStart(s[1..]);
      assert s[..|s| - |r|] == [s[0]] + s[1..][..|s[1..]| - |r|];
      r
    else
      s
  }

  /** Drops the trailing white space: what remains is a prefix of `s` that ends with a non-space. */
  function TrimEnd(s: string): (r: string)
    ensures |r| <= |s| && r == s[..|r|]
    ensures IsBlank(s[|r|..])
    ensures r == [] || !IsSpace(r[|r| - 1])
  {
    if s != [] && IsSpace(s[|s| - 1]) then
      var r := TrimEnd(s[..|s| - 1]);
      assert s[|r|..] == s[..|s| - 1][|r|..] + [s[|s| - 1]];
      r
    else
      s
  }

  /** `String.prototype.trim`: a piece of `s` that neither starts nor ends with white space. */
  function Trim(s: string): (r: string)
    ensures |r| <= |s|
    ensures r == [] || (!IsSpace(r[0]) && !IsSpace(r[|r| - 1]))
  {
    TrimEnd(TrimStart(s))
  }

  /** `!input.trim()` holds exactly when the input is empty or white space only. */
  lemma TrimEmptyIffBlank(s: string)
    ensures Trim(s) == [] <==> IsBlank(s)
  {
    var t := TrimStart(s);
    if Trim(s) == [] {
      assert IsBlank(t[0..]);
      assert t == [];
      assert s == s[..|s| - |t|];
    }
  }

  /** The test `!s.trim()`: the trimmed string is empty, the falsy string. */
  method TrimsToEmpty(s: string) returns (empty: bool)
    ensures empty <==> IsBlank(s)
  {
    TrimEmptyIffBlank(s);
    empty := Trim(s) == [];
  }

  // ---------------------------------------------------------------------------
  // Lower-casing
  // ---------------------------------------------------------------------------

  /**
   * `toLowerCase` on one character, for the characters whose lower case holds
   * an ASCII letter: the capitals A-Z, the capital I with dot above (which
   * becomes "i" and a combining dot above) and the Kelvin sign (which becomes
   * "k"). Every other character is kept as it is.
   */
  function LowerChar(c: char): string {
    if 'A' <= c <= 'Z' then [(c as int + 32) as char]
    else if c == '\U{0130}' then ['i', '\U{0307}']
    else if c == '\U{212A}' then ['k']
    else [c]
  }

  /** `String.prototype.toLowerCase`, character by character. */
  function Lower(s: string): string {
    if s == [] then [] else LowerChar(s[0]) + Lower(s[1..])
  }

  /** The lower case of one character below U+0130. */
  function LowerAscii(c: char): char {
    if 'A' <= c <= 'Z' then (c as int + 32) as char else c
  }

  /** On characters below U+0130, lower-casing maps each character to its lower case. */
  lemma {:induction false} LowerByChars(s: string, l: string)
    requires forall i | 0 <= i < |s| :: s[i] < '\U{0130}'
    requires |l| == |s| && forall i | 0 <= i < |s| :: l[i] == LowerAscii(s[i])
    ensures Lower(s) == l
  {
    if s != [] {
      LowerByChars(s[1..], l[1..]);
      assert l == [l[0]] + l[1..];
    }
  }

  /** No capital A-Z survives lower-casing. */
  lemma {:induction false} LowerHasNoCapitals(s: string)
    ensures forall i | 0 <= i < |Lower(s)| :: !('A' <= Lower(s)[i] <= 'Z')
  {
    if s != [] {
      LowerHasNoCapitals(s[1..]);
      var head, tail := LowerChar(s[0]), Lower(s[1..]);
      assert Lower(s) == head + tail;
      forall i | 0 <= i < |Lower(s)| ensures !('A' <= Lower(s)[i] <= 'Z') {
        if i >= |head| {
          assert Lower(s)[i] == tail[i - |head|];
        }
      }
    }
  }

  lemma {:induction false} LowerDistributes(a: string, b: string)
    ensures Lower(a + b) == Lower(a) + Lower(b)
  {
    if a != [] {
      assert (a + b)[1..] == a[1..] + b;
      LowerDistributes(a[1..], b);
    } else {
      assert a + b == b;
    }
  }

  /** Lower-casing twice is lower-casing once. */
  lemma {:induction false} LowerIdempotent(s: string)
    ensures Lower(Lower(s)) == Lower(s)
  {
    if s != [] {
      var head := LowerChar(s[0]);
      LowerDistributes(head, Lower(s[1..]));
      LowerIdempotent(s[1..]);
      if 'A' <= s[0] <= 'Z' {
        assert Lower(head) == LowerChar(head[0]) + Lower([]);
      } else if s[0] == '\U{0130}' {
        assert head[1..] == ['\U{0307}'];
        assert Lower(head) == LowerChar('i') + Lower(['\U{0307}']);
      } else {
        assert Lower(head) == LowerChar(head[0]) + Lower(head[1..]);
      }
    }
  }

  // ---------------------------------------------------------------------------
  // Whole-word search: /\bw\b/
  // ---------------------------------------------------------------------------

  /** The class \w of a regular expression without the u flag. */
  predicate IsWordChar(c: char) {
    'a' <= c <= 'z' || 'A' <= c <= 'Z' || '0' <= c <= '9' || c == '_'
  }

  /** Position `p` holds a word character; positions outside the string do not. */
  predicate WordAt(s: string, p: int) {
    0 <= p < |s| && IsWordChar(s[p])
  }

  /** The assertion \b at position `p`: a word character on exactly one side. */
  predicate Boundary(s: string, p: int) {
    WordAt(s, p - 1) != WordAt(s, p)
  }

  /** The characters of `s` from position `i` on spell `w`. */
  predicate OccursAt(s: string, w: string, i: int)
    requires 0 <= i && i + |w| <= |s|
  {
    forall k | 0 <= k < |w| :: s[i + k] == w[k]
  }

  lemma OccursAtChar(s: string, w: string, i: int, k: int)
    requires 0 <= i && i + |w| <= |s| && OccursAt(s, w, i) && 0 <= k < |w|
    ensures s[i + k] == w[k]
  {
  }

  /** `w` occurs at position `i` of `s` with a \b before and after it. */
  predicate HitAt(s: string, w: string, i: int) {
    0 <= i && i + |w| <= |s| && OccursAt(s, w, i) && Boundary(s, i) && Boundary(s, i + |w|)
  }

  /** The regular expression /\bw\b/ matches somewhere in `s`. */
  predicate WordMatch(s: string, w: string) {
    exists i | 0 <= i <= |s| - |w| :: HitAt(s, w, i)
  }

  /** Every character of `s` is a word character. */
  predicate IsWordString(s: string) {
    forall i | 0 <= i < |s| :: IsWordChar(s[i])
  }

  /** A keyword of the chat widget: a non-empty run of word characters. */
  predicate IsKeyword(w: string) {
    w != [] && IsWordString(w)
  }

  /** A keyword standing alone is matched. */
  lemma KeywordMatchesItself(w: string)
    requires IsKeyword(w)
    ensures WordMatch(w, w)
  {
    assert HitAt(w, w, 0);
  }

  /**
   * Putting text around a match keeps it a match, provided the text next to
   * it is empty or ends (before) / starts (after) with a non-word character.
   */
  lemma MatchInContext(p: string, s: string, q: string, w: string)
    requires IsKeyword(w) && WordMatch(s, w)
    requires p == [] || !IsWordChar(p[|p| - 1])
    requires q == [] || !IsWordChar(q[0])
    ensures WordMatch(p + s + q, w)
  {
    var i :| 0 <= i <= |s| - |w| && HitAt(s, w, i);
    assert s[i] == w[0] && s[i + |w| - 1] == w[|w| - 1];
    var t := p + s + q;
    var j := |p| + i;
    assert forall k | 0 <= k < |w| :: t[j + k] == s[i + k] == w[k];
    assert !WordAt(t, j - 1) by {
      if i > 0 { assert t[j - 1] == s[i - 1]; }
      else if p != [] { assert t[j - 1] == p[|p| - 1]; }
    }
    assert !WordAt(t, j + |w|) by {
      if i + |w| < |s| { assert t[j + |w|] == s[i + |w|]; }
      else if q != [] { assert t[j + |w|] == q[0]; }
    }
    assert HitAt(t, w, j);
  }

  /** Inside a run of word characters, a keyword matches only if it is the whole run. */
  lemma MatchInWordString(t: string, w: string)
    requires IsWordString(t) && IsKeyword(w)
    ensures WordMatch(t, w) <==> t == w
  {
    if WordMatch(t, w) {
      var j :| 0 <= j <= |t| - |w| && HitAt(t, w, j);
      if j > 0 {
        assert false;
      }
      if j + |w| < |t| {
        assert false;
      }
      assert |t| == |w|;
      assert forall k | 0 <= k < |w| :: t[k] == w[k];
    }
    if t == w {
      KeywordMatchesItself(w);
    }
  }

  /** A non-word character splits the search: no keyword match straddles it. */
  lemma MatchSplit(p: string, c: char, q: string, w: string)
    requires !IsWordChar(c) && IsKeyword(w)
    ensures WordMatch(p + [c] + q, w) <==> WordMatch(p, w) || WordMatch(q, w)
  {
    var t := p + [c] + q;
    if WordMatch(p, w) {
      MatchInContext([], p, [c] + q, w);
      assert [] + p + ([c] + q) == t;
    }
    if WordMatch(q, w) {
      MatchInContext(p + [c], q, [], w);
      assert p + [c] + q + [] == t;
    }
    if WordMatch(t, w) {
      var j :| 0 <= j <= |t| - |w| && HitAt(t, w, j);
      if j + |w| <= |p| {
        assert forall k | 0 <= k < |w| :: p[j + k] == t[j + k] == w[k];
        assert WordAt(p, j - 1) == WordAt(t, j - 1) && WordAt(p, j) == WordAt(t, j);
        assert WordAt(p, j + |w| - 1) == WordAt(t, j + |w| - 1);
        assert WordAt(p, j + |w|) == WordAt(t, j + |w|) by {
          if j + |w| == |p| { assert t[|p|] == c; }
        }
        assert HitAt(p, w, j);
      } else if j > |p| {
        var i := j - |p| - 1;
        assert forall k | 0 <= k < |w| :: q[i + k] == t[j + k] == w[k];
        assert WordAt(q, i - 1) == WordAt(t, j - 1) by {
          if i == 0 { assert t[j - 1] == c; }
        }
        assert WordAt(q, i) == WordAt(t, j);
        assert WordAt(q, i + |w| - 1) == WordAt(t, j + |w| - 1);
        assert WordAt(q, i + |w|) == WordAt(t, j + |w|);
        assert HitAt(q, w, i);
      } else {
        OccursAtChar(t, w, j, |p| - j);
        assert false;
      }
    }
  }

  /** A string written as runs of characters separated by single characters. */
  function Join(runs: seq<string>, seps: seq<char>): string
    requires |seps| + 1 == |runs|
  {
    if seps == [] then runs[0] else runs[0] + [seps[0]] + Join(runs[1..], seps[1..])
  }

  predicate AllWordStrings(runs: seq<string>) {
    forall i | 0 <= i < |runs| :: IsWordString(runs[i])
  }

  /** Every separator is a non-word character. */
  predicate AllSeparators(seps: seq<char>) {
    forall i | 0 <= i < |seps| :: !IsWordChar(seps[i])
  }

  /** Lower-casing leaves every separator as it is (true of all but U+0130 and U+212A). */
  predicate AllCaseless(seps: seq<char>) {
    forall i | 0 <= i < |seps| :: LowerChar(seps[i]) == [seps[i]]
  }

  /**
   * Whole-word matching: in a string made of word runs and separators, a
   * keyword matches exactly when it is one of the runs.
   */
  lemma {:induction false} MatchJoin(runs: seq<string>, seps: seq<char>, w: string)
    requires |seps| + 1 == |runs| && AllWordStrings(runs) && AllSeparators(seps) && IsKeyword(w)
    ensures WordMatch(Join(runs, seps), w) <==> w in runs
  {
    if seps == [] {
      MatchInWordString(runs[0], w);
      assert runs == [runs[0]];
    } else {
      MatchInWordString(runs[0], w);
      MatchJoin(runs[1..], seps[1..], w);
      MatchSplit(runs[0], seps[0], Join(runs[1..], seps[1..]), w);
      assert runs == [runs[0]] + runs[1..];
    }
  }

  /** A string cut into its maximal runs of word characters and the single non-word characters between them. */
  datatype Words = Words(runs: seq<string>, seps: seq<char>)

  /**
   * Cuts `s` into words: every string is its runs joined by its separators,
   * with at least one (possibly empty) run.
   */
  function Tokenize(s: string): (t: Words)
    ensures |t.seps| + 1 == |t.runs|
    ensures AllWordStrings(t.runs) && AllSeparators(t.seps)
    ensures Join(t.runs, t.seps) == s
  {
    if s == [] then Words([""], [])
    else
      var rest := Tokenize(s[1..]);
      if IsWordChar(s[0]) then
        var runs := [[s[0]] + rest.runs[0]] + rest.runs[1..];
        assert runs[1..] == rest.runs[1..];
        assert s == [s[0]] + s[1..];
        Words(runs, rest.seps)
      else
        var runs := [""] + rest.runs;
        assert runs[1..] == rest.runs;
        assert s == [s[0]] + s[1..];
        Words(runs, [s[0]] + rest.seps)
  }

  function LowerAll(runs: seq<string>): (r: seq<string>)
    ensures |r| == |runs|
  {
    if runs == [] then [] else [Lower(runs[0])] + LowerAll(runs[1..])
  }

  /** A run of word characters stays one after lower-casing. */
  lemma {:induction false} LowerWordString(t: string)
    requires IsWordString(t)
    ensures IsWordString(Lower(t))
  {
    if t != [] {
      LowerWordString(t[1..]);
      assert Lower(t) == LowerChar(t[0]) + Lower(t[1..]);
      if 'A' <= t[0] <= 'Z' {
        assert IsWordChar(LowerChar(t[0])[0]);
      }
      assert Lower(t)[1..] == Lower(t[1..]);
    }
  }

  lemma {:induction false} LowerAllWordStrings(runs: seq<string>)
    requires AllWordStrings(runs)
    ensures AllWordStrings(LowerAll(runs))
  {
    if runs != [] {
      LowerWordString(runs[0]);
      LowerAllWordStrings(runs[1..]);
      assert LowerAll(runs)[1..] == LowerAll(runs[1..]);
    }
  }

  /** Lower-casing a joined string lower-cases each run and keeps the separators. */
  lemma {:induction false} LowerJoin(runs: seq<string>, seps: seq<char>)
    requires |seps| + 1 == |runs| && AllCaseless(seps)
    ensures Lower(Join(runs, seps)) == Join(LowerAll(runs), seps)
  {
    if seps != [] {
      LowerJoin(runs[1..], seps[1..]);
      LowerDistributes(runs[0] + [seps[0]], Join(runs[1..], seps[1..]));
      LowerDistributes(runs[0], [seps[0]]);
      assert Lower([seps[0]]) == LowerChar(seps[0]) + Lower([]);
      assert LowerAll(runs)[1..] == LowerAll(runs[1..]);
    }
  }

  /** A run of word characters without capital letters. */
  predicate IsLowerWordString(t: string) {
    forall i | 0 <= i < |t| :: IsWordChar(t[i]) && !('A' <= t[i] <= 'Z')
  }

  predicate AllLowerWordStrings(runs: seq<string>) {
    forall i | 0 <= i < |runs| :: IsLowerWordString(runs[i])
  }

  /** Lower-casing leaves a run without capitals as it is. */
  lemma {:induction false} LowerKeepsLowercase(t: string)
    requires IsLowerWordString(t)
    ensures IsWordString(t) && Lower(t) == t
  {
    if t != [] {
      LowerKeepsLowercase(t[1..]);
      assert t == [t[0]] + t[1..];
    }
  }

  lemma {:induction false} LowerAllKeepsLowercase(runs: seq<string>)
    requires AllLowerWordStrings(runs)
    ensures AllWordStrings(runs) && LowerAll(runs) == runs
  {
    if runs != [] {
      LowerKeepsLowercase(runs[0]);
      LowerAllKeepsLowercase(runs[1..]);
      assert runs == [runs[0]] + runs[1..];
    }
  }
}
