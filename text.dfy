/**
 * The string primitives the scanner is built from, as Rust's `str` provides
 * them: `starts_with`, `find`, `contains`, `split(c).next()` and `trim`.
 * Positions count characters; the source counts bytes, which picks the same
 * places in the same text.
 */
module Text {
  import opened Optional

  /** `s.starts_with(prefix)`. */
  predicate StartsWith(s: string, prefix: string)
    ensures StartsWith(s, prefix) <==> |prefix| <= |s| && s[..|prefix|] == prefix
  {
    prefix <= s
  }

  /** `key` occurs in `s` starting at position `k`. */
  predicate OccursAt(s: string, key: string, k: nat) {
    k + |key| <= |s| && s[k..k + |key|] == key
  }

  /** The first occurrence of `key` in `s` at or after `i`. */
  function FindFrom(s: string, key: string, i: nat): (r: Option<nat>)
    requires i <= |s|
    ensures r.Some? ==> i <= r.value <= |s| && OccursAt(s, key, r.value)
    ensures forall j: nat :: i <= j && OccursAt(s, key, j) ==> r.Some? && r.value <= j
    decreases |s| - i
  {
    if OccursAt(s, key, i) then Some(i)
    else if i == |s| then None
    else FindFrom(s, key, i + 1)
  }

  /** `s.find(key)`: the position of the first occurrence, or `None`. */
  function Find(s: string, key: string): (r: Option<nat>)
    ensures r.Some? ==> OccursAt(s, key, r.value)
    ensures r.Some? ==> forall j: nat :: j < r.value ==> !OccursAt(s, key, j)
    ensures r.None? <==> forall j: nat :: !OccursAt(s, key, j)
  {
    FindFrom(s, key, 0)
  }

  /** `s.contains(key)`. */
  predicate Contains(s: string, key: string)
    ensures Contains(s, key) <==> exists j: nat :: OccursAt(s, key, j)
  {
    Find(s, key).Some?
  }

  /** `s.split(d).next()`: the text before the first `d`, or all of `s`. */
  function Before(s: string, d: char): (r: string)
    ensures r <= s
    ensures d !in r
    ensures |r| < |s| ==> s[|r|] == d
  {
    if s == [] || s[0] == d then [] else [s[0]] + Before(s[1..], d)
  }

  /** Rust's `char::is_whitespace`: the Unicode White_Space property. */
  predicate IsWhitespace(c: char)
    ensures c == ' ' || c == '\t' || c == '\n' || c == '\r' ==> IsWhitespace(c)
    ensures '0' <= c <= '9' || 'A' <= c <= 'Z' || 'a' <= c <= 'z' ==> !IsWhitespace(c)
  {
    '\t' <= c <= '\r' || c == ' ' || c == '\U{0085}' || c == '\U{00A0}' ||
    c == '\U{1680}' || '\U{2000}' <= c <= '\U{200A}' || c == '\U{2028}' ||
    c == '\U{2029}' || c == '\U{202F}' || c == '\U{205F}' || c == '\U{3000}'
  }

  predicate AllWhitespace(s: string) {
    forall i :: 0 <= i < |s| ==> IsWhitespace(s[i])
  }

  /** `s.trim_start()`: `s` without its leading white space. */
  function TrimStart(s: string): (r: string)
    ensures |r| <= |s| && r == s[|s| - |r|..]
    ensures AllWhitespace(s[..|s| - |r|])
    ensures r != [] ==> !IsWhitespace(r[0])
  {
    if s != [] && IsWhitespace(s[0]) then
      var r := TrimStart(s[1..]);
      assert s[1..][|s| - 1 - |r|..] == s[|s| - |r|..];
      assert forall k :: 1 <= k < |s| - |r| ==> s[k] == s[1..][..|s| - 1 - |r|][k - 1];
      r
    else s
  }

  /** `s.trim_end()`: `s` without its trailing white space. */
  function TrimEnd(s: string): (r: string)
    ensures r <= s
    ensures AllWhitespace(s[|r|..])
    ensures r != [] ==> !IsWhitespace(r[|r| - 1])
  {
    if s != [] && IsWhitespace(s[|s| - 1]) then TrimEnd(s[..|s| - 1]) else s
  }

  /** `s.trim()`: a contiguous part of `s` with no white space at either end. */
  function Trim(s: string): (r: string)
    ensures |r| <= |s|
    ensures r != [] ==> !IsWhitespace(r[0]) && !IsWhitespace(r[|r| - 1])
  {
    var t := TrimStart(s);
    var r := TrimEnd(t);
    assert r != [] ==> r[0] == t[0];
    r
  }

  /** `v[i..j]` is `w` and only white space lies before and after it. */
  predicate PaddedAt(v: string, w: string, i: nat, j: nat) {
    i <= j <= |v| && v[i..j] == w && AllWhitespace(v[..i]) && AllWhitespace(v[j..])
  }

  /** `v` is `w` with only white space before and after it. */
  ghost predicate PaddedBy(v: string, w: string) {
    exists i: nat, j: nat :: PaddedAt(v, w, i, j)
  }

  /** Leading white space up to a non-white character is exactly what `TrimStart` removes. */
  lemma {:induction false} TrimStartAt(v: string, i: nat)
    requires i <= |v| && AllWhitespace(v[..i])
    requires i < |v| ==> !IsWhitespace(v[i])
    ensures TrimStart(v) == v[i..]
    decreases i
  {
    if i > 0 {
      assert v[0] == v[..i][0];
      assert v[1..][..i - 1] == v[1..i];
      assert forall k :: 0 <= k < i - 1 ==> v[1..i][k] == v[..i][k + 1];
      TrimStartAt(v[1..], i - 1);
      assert v[1..][i - 1..] == v[i..];
    }
  }

  /** Trailing white space after a non-white character is exactly what `TrimEnd` removes. */
  lemma {:induction false} TrimEndAt(t: string, n: nat)
    requires n <= |t| && AllWhitespace(t[n..])
    requires 0 < n ==> !IsWhitespace(t[n - 1])
    ensures TrimEnd(t) == t[..n]
    decreases |t| - n
  {
    if n < |t| {
      var u := t[..|t| - 1];
      assert t[|t| - 1] == t[n..][|t| - 1 - n];
      assert u[n..] == t[n..|t| - 1];
      assert forall k :: 0 <= k < |t| - 1 - n ==> u[n..][k] == t[n..][k];
      TrimEndAt(u, n);
      assert u[..n] == t[..n];
    }
  }

  /** A text that trims to `w` is `w` padded with white space. */
  lemma TrimmedIsPadded(v: string, w: string)
    requires Trim(v) == w
    ensures PaddedBy(v, w)
  {
    var t := TrimStart(v);
    var m := |v| - |t|;
    assert TrimEnd(t) == w;
    var j := m + |w|;
    assert t == v[m..] && w <= t;
    assert v[m..j] == t[..|w|];
    assert v[j..] == t[|w|..];
    assert PaddedAt(v, w, m, j);
  }

  /** Padding a word that has no white space at either end is undone by trimming. */
  lemma PaddedTrims(v: string, w: string, i: nat, j: nat)
    requires w != [] && !IsWhitespace(w[0]) && !IsWhitespace(w[|w| - 1])
    requires PaddedAt(v, w, i, j)
    ensures Trim(v) == w
  {
    assert v[i] == v[i..j][0];
    TrimStartAt(v, i);
    var t := v[i..];
    assert t[..|w|] == v[i..j];
    assert t[|w|..] == v[j..];
    assert t[|w| - 1] == w[|w| - 1];
    TrimEndAt(t, |w|);
  }

  /**
   * Trimming yields a word that neither starts nor ends with white space
   * exactly when the text is that word padded with white space.
   */
  lemma TrimEqualsIff(v: string, w: string)
    requires w != [] && !IsWhitespace(w[0]) && !IsWhitespace(w[|w| - 1])
    ensures Trim(v) == w <==> PaddedBy(v, w)
  {
    if Trim(v) == w {
      TrimmedIsPadded(v, w);
    }
    if PaddedBy(v, w) {
      var i: nat, j: nat :| PaddedAt(v, w, i, j);
      PaddedTrims(v, w, i, j);
    }
  }
}
