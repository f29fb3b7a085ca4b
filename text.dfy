/** The Foundation string behaviour the app relies on: lower-casing, searching a
    window of a string (NSString.range(of:options:range:)), String.contains and
    Swift's `<` on strings. Strings are sequences of characters with one length. */
module Text {
  import opened Wrappers

  /** Foundation's NSRange: a start location and a length. */
  datatype NSRange = NSRange(location: nat, length: nat)

  /** Lower-casing of one character, restricted to ASCII letters. */
  function Lower(c: char): char
  {
    if 'A' <= c <= 'Z' then (c as int + 32) as char else c
  }

  /** String.lowercased(), character by character. */
  function LowerStr(s: string): (r: string)
    ensures |r| == |s|
    ensures forall i :: 0 <= i < |s| ==> r[i] == Lower(s[i])
  {
    seq(|s|, i requires 0 <= i < |s| => Lower(s[i]))
  }

  /** Character equality, ignoring ASCII case when `ignoreCase` holds
      (the `.caseInsensitive` comparison option). */
  predicate SameChar(a: char, b: char, ignoreCase: bool)
  {
    if ignoreCase then Lower(a) == Lower(b) else a == b
  }

  /** `q` occurs in `s` starting at position `p`: each character of `q` is the same
      as the one of `s` it lies over. */
  predicate MatchAt(s: string, q: string, p: nat, ignoreCase: bool)
    decreases |q|
  {
    p + |q| <= |s| && (q == [] || (SameChar(s[p], q[0], ignoreCase) && MatchAt(s, q[1..], p + 1, ignoreCase)))
  }

  /** Character by character, what MatchAt means. */
  lemma {:induction false} MatchAtChars(s: string, q: string, p: nat, ignoreCase: bool)
    ensures MatchAt(s, q, p, ignoreCase)
            <==> p + |q| <= |s| && forall k :: 0 <= k < |q| ==> SameChar(s[p + k], q[k], ignoreCase)
    decreases |q|
  {
    if q != [] && p + |q| <= |s| {
      MatchAtChars(s, q[1..], p + 1, ignoreCase);
      assert forall k :: 1 <= k < |q| ==> q[k] == q[1..][k - 1] && s[p + k] == s[(p + 1) + (k - 1)];
    }
  }

  /** A non-empty `q` occurs somewhere in `s`, ignoring ASCII case. */
  ghost predicate OccursIgnoringCase(s: string, q: string)
  {
    q != [] && exists p: nat :: MatchAt(s, q, p, true)
  }

  /** No occurrence of `q` lies wholly inside `window`. */
  predicate NoMatchIn(s: string, q: string, window: NSRange, ignoreCase: bool)
  {
    forall p: nat :: window.location <= p && p + |q| <= window.location + window.length ==> !MatchAt(s, q, p, ignoreCase)
  }

  /** NSString.range(of:options:range:): the first occurrence of `q` lying wholly in
      `window`, or nothing (NSNotFound). An empty `q` is never found. */
  function RangeOf(s: string, q: string, window: NSRange, ignoreCase: bool): (r: Option<NSRange>)
    requires window.location + window.length <= |s|
    ensures r.Some? ==> q != [] && r.value.length == |q|
    ensures r.Some? ==> window.location <= r.value.location && r.value.location + |q| <= window.location + window.length
    decreases window.length
  {
    if q == [] || |q| > window.length then None
    else if MatchAt(s, q, window.location, ignoreCase) then Some(NSRange(window.location, |q|))
    else RangeOf(s, q, NSRange(window.location + 1, window.length - 1), ignoreCase)
  }

  /** What range(of:) finds is an occurrence with none before it in the window; it
      finds nothing exactly when the search text is empty or the window holds no
      occurrence. */
  lemma {:induction false} RangeOfFirstMatch(s: string, q: string, window: NSRange, ignoreCase: bool)
    requires window.location + window.length <= |s|
    ensures RangeOf(s, q, window, ignoreCase).Some? ==> MatchAt(s, q, RangeOf(s, q, window, ignoreCase).value.location, ignoreCase)
    ensures RangeOf(s, q, window, ignoreCase).Some?
            ==> NoMatchBefore(s, q, window.location, RangeOf(s, q, window, ignoreCase).value.location, ignoreCase)
    ensures RangeOf(s, q, window, ignoreCase).None? <==> q == [] || NoMatchIn(s, q, window, ignoreCase)
    decreases window.length
  {
    if q != [] && |q| <= window.length && !MatchAt(s, q, window.location, ignoreCase) {
      var rest := NSRange(window.location + 1, window.length - 1);
      assert RangeOf(s, q, window, ignoreCase) == RangeOf(s, q, rest, ignoreCase);
      RangeOfFirstMatch(s, q, rest, ignoreCase);
      assert NoMatchIn(s, q, window, ignoreCase) <==> NoMatchIn(s, q, rest, ignoreCase) by {
        if NoMatchIn(s, q, rest, ignoreCase) {
          forall p: nat | window.location <= p && p + |q| <= window.location + window.length
            ensures !MatchAt(s, q, p, ignoreCase)
          {
            if p != window.location {
              assert rest.location <= p && p + |q| <= rest.location + rest.length;
            }
          }
        }
      }
    }
  }

  /** No occurrence of `q` starts in [from, to). */
  predicate NoMatchBefore(s: string, q: string, from: nat, to: nat, ignoreCase: bool)
  {
    forall p: nat :: from <= p < to ==> !MatchAt(s, q, p, ignoreCase)
  }

  /** An occurrence never reaches past the end, so a whole-string window covers them all. */
  lemma NoMatchAnywhere(s: string, q: string, ignoreCase: bool)
    requires NoMatchIn(s, q, NSRange(0, |s|), ignoreCase)
    ensures forall p: nat :: !MatchAt(s, q, p, ignoreCase)
  {
  }

  /** Over the whole string, range(of:) finds something exactly when a non-empty `q`
      occurs at some position. */
  lemma RangeOfWhole(s: string, q: string, ignoreCase: bool)
    ensures RangeOf(s, q, NSRange(0, |s|), ignoreCase).Some? <==> q != [] && exists p: nat :: MatchAt(s, q, p, ignoreCase)
  {
    RangeOfFirstMatch(s, q, NSRange(0, |s|), ignoreCase);
    if RangeOf(s, q, NSRange(0, |s|), ignoreCase).Some? {
      var at: nat := RangeOf(s, q, NSRange(0, |s|), ignoreCase).value.location;
      assert MatchAt(s, q, at, ignoreCase);
      assert exists p: nat :: MatchAt(s, q, p, ignoreCase);
    } else if q != [] {
      NoMatchAnywhere(s, q, ignoreCase);
    }
  }

  /** Foundation's String.contains: range(of:) over the whole string, compared exactly. */
  function Contains(s: string, q: string): (r: bool)
    ensures r <==> q != [] && exists p: nat :: MatchAt(s, q, p, false)
  {
    RangeOfWhole(s, q, false);
    RangeOf(s, q, NSRange(0, |s|), false).Some?
  }

  /** Exact search in lower-cased strings is case-insensitive search in the originals. */
  lemma LoweredMatch(s: string, q: string, p: nat)
    ensures MatchAt(LowerStr(s), LowerStr(q), p, false) <==> MatchAt(s, q, p, true)
  {
    MatchAtChars(LowerStr(s), LowerStr(q), p, false);
    MatchAtChars(s, q, p, true);
  }

  /** `lowercased().contains(lowercased())` is case-insensitive containment. */
  lemma ContainsLowered(s: string, q: string)
    ensures Contains(LowerStr(s), LowerStr(q)) <==> OccursIgnoringCase(s, q)
  {
    if Contains(LowerStr(s), LowerStr(q)) {
      var p: nat :| MatchAt(LowerStr(s), LowerStr(q), p, false);
      LoweredMatch(s, q, p);
    }
    if OccursIgnoringCase(s, q) {
      var p: nat :| MatchAt(s, q, p, true);
      LoweredMatch(s, q, p);
    }
  }

  /** Swift's `<` on strings, read as lexicographic order on characters (which is
      what Swift's comparison does on ASCII text). */
  predicate Less(a: string, b: string)
    decreases |a|
  {
    if b == [] then false
    else if a == [] then true
    else if a[0] != b[0] then a[0] < b[0]
    else Less(a[1..], b[1..])
  }

  lemma {:induction false} LessIrreflexive(a: string)
    ensures !Less(a, a)
    decreases |a|
  {
    if a != [] { LessIrreflexive(a[1..]); }
  }

  lemma {:induction false} LessTransitive(a: string, b: string, c: string)
    requires Less(a, b) && Less(b, c)
    ensures Less(a, c)
    decreases |a|
  {
    if a != [] && a[0] == b[0] && b[0] == c[0] {
      LessTransitive(a[1..], b[1..], c[1..]);
    }
  }

  lemma {:induction false} LessTotal(a: string, b: string)
    ensures a == b || Less(a, b) || Less(b, a)
    decreases |a|
  {
    if a != [] && b != [] && a[0] == b[0] {
      LessTotal(a[1..], b[1..]);
      if a[1..] == b[1..] {
        assert a == [a[0]] + a[1..] && b == [b[0]] + b[1..];
      }
    }
  }

  lemma {:induction false} LessAsymmetric(a: string, b: string)
    requires Less(a, b)
    ensures !Less(b, a)
  {
    if Less(b, a) {
      LessTransitive(a, b, a);
      LessIrreflexive(a);
    }
  }

  /** "Not less" is transitive: the order the sort's result is arranged in. */
  lemma {:induction false} NotLessTransitive(a: string, b: string, c: string)
    requires !Less(b, a) && !Less(c, b)
    ensures !Less(c, a)
  {
    LessTotal(a, b);
    if Less(a, b) && Less(c, a) {
      LessTransitive(c, a, b);
    }
  }
}
