/**
 * The few Python `str` operations the backup tool relies on:
 * `startswith`, the search behind `split` and `strip`.
 */
module Strings {
  import opened Results

  predicate HasPrefix(s: string, p: string) {
    |p| <= |s| && s[..|p|] == p
  }

  predicate HasSuffix(s: string, p: string) {
    |p| <= |s| && s[|s| - |p|..] == p
  }

  /** `p` occurs in `s` starting at index `i`. */
  predicate OccursAt(s: string, p: string, i: nat) {
    i + |p| <= |s| && s[i..i + |p|] == p
  }

  predicate Contains(s: string, p: string) {
    exists i :: 0 <= i <= |s| && OccursAt(s, p, i)
  }

  /** The first index at or after `from` where `p` occurs, as `str.find` searches. */
  function IndexOf(s: string, p: string, from: nat): (r: Option<nat>)
    decreases |s| - from
    ensures r.Some? ==> from <= r.value && OccursAt(s, p, r.value)
    ensures r.Some? ==> forall i: nat :: from <= i < r.value ==> !OccursAt(s, p, i)
    ensures r.None? ==> forall i: nat :: from <= i ==> !OccursAt(s, p, i)
  {
    if |s| < from + |p| then None
    else if s[from..from + |p|] == p then Some(from)
    else IndexOf(s, p, from + 1)
  }

  /** Exactly the characters for which Python's `str.isspace()` holds. */
  predicate IsSpace(c: char) {
    || c == ' '
    || '\t' <= c <= '\r'
    || '\U{1c}' <= c <= '\U{1f}'
    || c == '\U{85}' || c == '\U{a0}' || c == '\U{1680}'
    || '\U{2000}' <= c <= '\U{200a}'
    || c == '\U{2028}' || c == '\U{2029}' || c == '\U{202f}' || c == '\U{205f}' || c == '\U{3000}'
  }

  predicate AllSpace(s: string) {
    forall k :: 0 <= k < |s| ==> IsSpace(s[k])
  }

  /** Neither end of `s` is whitespace. */
  predicate Trimmed(s: string) {
    s == [] || (!IsSpace(s[0]) && !IsSpace(s[|s| - 1]))
  }

  function TrimStart(s: string): string {
    if s != [] && IsSpace(s[0]) then TrimStart(s[1..]) else s
  }

  function TrimEnd(s: string): string {
    if s != [] && IsSpace(s[|s| - 1]) then TrimEnd(s[..|s| - 1]) else s
  }

  /** Python's `str.strip()` with no argument. */
  function Strip(s: string): string {
    TrimEnd(TrimStart(s))
  }

  lemma {:induction false} TrimStartShape(s: string)
    ensures exists n :: 0 <= n <= |s| && AllSpace(s[..n]) && TrimStart(s) == s[n..]
    ensures TrimStart(s) == [] || !IsSpace(TrimStart(s)[0])
  {
    if s != [] && IsSpace(s[0]) {
      TrimStartShape(s[1..]);
      var t := s[1..];
      var n :| 0 <= n <= |t| && AllSpace(t[..n]) && TrimStart(t) == t[n..];
      assert TrimStart(s) == TrimStart(t);
      assert s[n + 1..] == t[n..];
      var lead, tail := s[..n + 1], t[..n];
      forall k | 0 <= k < |lead|
        ensures IsSpace(lead[k])
      {
        if k > 0 {
          assert lead[k] == tail[k - 1];
        }
      }
      assert 0 <= n + 1 <= |s| && AllSpace(s[..n + 1]) && TrimStart(s) == s[n + 1..];
    } else {
      assert s[..0] == [] && s[0..] == s;
      assert 0 <= 0 <= |s| && AllSpace(s[..0]) && TrimStart(s) == s[0..];
    }
  }

  lemma {:induction false} TrimEndShape(s: string)
    ensures exists n :: 0 <= n <= |s| && AllSpace(s[n..]) && TrimEnd(s) == s[..n]
    ensures TrimEnd(s) == [] || !IsSpace(TrimEnd(s)[|TrimEnd(s)| - 1])
  {
    if s != [] && IsSpace(s[|s| - 1]) {
      var t := s[..|s| - 1];
      TrimEndShape(t);
      var n :| 0 <= n <= |t| && AllSpace(t[n..]) && TrimEnd(t) == t[..n];
      assert TrimEnd(s) == TrimEnd(t);
      assert s[..n] == t[..n];
      var trail, inner := s[n..], t[n..];
      forall k | 0 <= k < |trail|
        ensures IsSpace(trail[k])
      {
        if k < |inner| {
          assert trail[k] == inner[k];
        }
      }
      assert 0 <= n <= |s| && AllSpace(s[n..]) && TrimEnd(s) == s[..n];
    } else {
      assert s[|s|..] == [] && s[..|s|] == s;
      assert 0 <= |s| <= |s| && AllSpace(s[|s|..]) && TrimEnd(s) == s[..|s|];
    }
  }

  lemma {:induction false} TrimEndKeepsFirst(s: string)
    requires s == [] || !IsSpace(s[0])
    ensures TrimEnd(s) == [] || TrimEnd(s)[0] == s[0]
  {
    TrimEndShape(s);
  }

  /**
   * `strip` removes a whitespace margin and nothing else: the result has no
   * whitespace at either end, and the input is the result with a whitespace
   * prefix and a whitespace suffix added.
   */
  lemma StripShape(s: string)
    ensures Trimmed(Strip(s))
    ensures exists i, j :: 0 <= i <= j <= |s| && AllSpace(s[..i]) && AllSpace(s[j..]) && Strip(s) == s[i..j]
  {
    TrimStartShape(s);
    var i :| 0 <= i <= |s| && AllSpace(s[..i]) && TrimStart(s) == s[i..];
    var t := s[i..];
    TrimEndShape(t);
    var n :| 0 <= n <= |t| && AllSpace(t[n..]) && TrimEnd(t) == t[..n];
    assert s[i + n..] == t[n..];
    assert s[i..i + n] == t[..n];
    TrimEndKeepsFirst(t);
  }

  lemma {:induction false} TrimStartPadded(lead: string, s: string)
    requires AllSpace(lead)
    requires s == [] || !IsSpace(s[0])
    ensures TrimStart(lead + s) == s
  {
    if lead == [] {
      assert lead + s == s;
    } else {
      assert (lead + s)[1..] == lead[1..] + s;
      TrimStartPadded(lead[1..], s);
    }
  }

  lemma {:induction false} TrimEndPadded(s: string, trail: string)
    requires AllSpace(trail)
    requires s == [] || !IsSpace(s[|s| - 1])
    ensures TrimEnd(s + trail) == s
  {
    if trail == [] {
      assert s + trail == s;
    } else {
      var u := trail[..|trail| - 1];
      assert (s + trail)[..|s + trail| - 1] == s + u;
      TrimEndPadded(s, u);
    }
  }

  /** Stripping a whitespace margin off a trimmed string gives the string back. */
  lemma StripPadded(lead: string, s: string, trail: string)
    requires AllSpace(lead) && AllSpace(trail) && Trimmed(s)
    ensures Strip(lead + s + trail) == s
  {
    if s == [] {
      assert lead + s + trail == lead + trail;
      TrimStartShape(lead + trail);
      var n :| 0 <= n <= |lead + trail| && AllSpace((lead + trail)[..n]) && TrimStart(lead + trail) == (lead + trail)[n..];
      assert AllSpace((lead + trail)[n..]);
      TrimEndShape(TrimStart(lead + trail));
    } else {
      assert lead + s + trail == lead + (s + trail);
      TrimStartPadded(lead, s + trail);
      TrimEndPadded(s, trail);
    }
  }
}
