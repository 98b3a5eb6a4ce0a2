/**
 * `trimmingCharacters(in: CharacterSet.alphanumerics.inverted)`: drop every
 * character that is not a letter or a digit from both ends of a string,
 * keeping the middle untouched.
 */
module Trimming {
  import opened Ascii

  /** No character of `s` is a letter or a digit. */
  predicate NoAlphanumerics(s: string) {
    forall i :: 0 <= i < |s| ==> !IsAlphanumeric(s[i])
  }

  /**
   * `s[i..j]` is what is left once both ends are trimmed: everything outside
   * it is padding, and it is empty or starts and ends with a letter or digit.
   */
  predicate IsTrimRange(s: string, i: int, j: int) {
    0 <= i <= j <= |s|
    && (forall k :: 0 <= k < i ==> !IsAlphanumeric(s[k]))
    && (forall k :: j <= k < |s| ==> !IsAlphanumeric(s[k]))
    && (i < j ==> IsAlphanumeric(s[i]) && IsAlphanumeric(s[j - 1]))
  }

  /** Index of the first letter or digit (`|s|` when there is none). */
  function TextStart(s: string): (i: nat)
    ensures i <= |s|
    ensures forall k :: 0 <= k < i ==> !IsAlphanumeric(s[k])
    ensures i < |s| ==> IsAlphanumeric(s[i])
  {
    if s == [] || IsAlphanumeric(s[0]) then 0 else 1 + TextStart(s[1..])
  }

  /** Index just past the last letter or digit (0 when there is none). */
  function TextEnd(s: string): (j: nat)
    ensures j <= |s|
    ensures forall k :: j <= k < |s| ==> !IsAlphanumeric(s[k])
    ensures 0 < j ==> IsAlphanumeric(s[j - 1])
  {
    if s == [] || IsAlphanumeric(s[|s| - 1]) then |s| else TextEnd(s[..|s| - 1])
  }

  /** Both ends trimmed: the result is the slice of `s` between the padding in front and behind. */
  function Trim(s: string): (r: string)
    ensures TextStart(s) + |r| <= |s|
    ensures r == s[TextStart(s)..TextStart(s) + |r|]
    ensures IsTrimRange(s, TextStart(s), TextStart(s) + |r|)
  {
    var i, j := TextStart(s), TextEnd(s);
    if i <= j then s[i..j] else []
  }

  /** A trim range is the only one: it determines the trim. */
  lemma TrimOfRange(s: string, i: int, j: int)
    requires IsTrimRange(s, i, j)
    ensures Trim(s) == s[i..j]
  {
    var i', r := TextStart(s), Trim(s);
    var j' := i' + |r|;
    if i < j || i' < j' {
      assert i' == i && j' == j;
    }
  }

  /** Padding in front shifts a trim range. */
  lemma TrimRangeAfterPrefix(p: string, s: string, i: int, j: int)
    requires NoAlphanumerics(p) && IsTrimRange(s, i, j)
    ensures IsTrimRange(p + s, |p| + i, |p| + j)
    ensures (p + s)[|p| + i..|p| + j] == s[i..j]
  {
    var t := p + s;
    forall k | 0 <= k < |p| + i ensures !IsAlphanumeric(t[k]) {
      if k < |p| { assert t[k] == p[k]; } else { assert t[k] == s[k - |p|]; }
    }
    forall k | |p| + j <= k < |t| ensures !IsAlphanumeric(t[k]) {
      assert t[k] == s[k - |p|];
    }
    if i < j {
      assert t[|p| + i] == s[i] && t[|p| + j - 1] == s[j - 1];
    }
  }

  /** Padding behind keeps a trim range. */
  lemma TrimRangeBeforeSuffix(s: string, q: string, i: int, j: int)
    requires NoAlphanumerics(q) && IsTrimRange(s, i, j)
    ensures IsTrimRange(s + q, i, j)
    ensures (s + q)[i..j] == s[i..j]
  {
    var t := s + q;
    forall k | 0 <= k < i ensures !IsAlphanumeric(t[k]) {
      assert t[k] == s[k];
    }
    forall k | j <= k < |t| ensures !IsAlphanumeric(t[k]) {
      if k < |s| { assert t[k] == s[k]; } else { assert t[k] == q[k - |s|]; }
    }
    if i < j {
      assert t[i] == s[i] && t[j - 1] == s[j - 1];
    }
  }

  /** Non-alphanumeric padding in front does not change the trim. */
  lemma TrimIgnoresPrefix(p: string, s: string)
    requires NoAlphanumerics(p)
    ensures Trim(p + s) == Trim(s)
  {
    var i, r := TextStart(s), Trim(s);
    TrimRangeAfterPrefix(p, s, i, i + |r|);
    TrimOfRange(p + s, |p| + i, |p| + i + |r|);
  }

  /** Non-alphanumeric padding behind does not change the trim. */
  lemma TrimIgnoresSuffix(s: string, q: string)
    requires NoAlphanumerics(q)
    ensures Trim(s + q) == Trim(s)
  {
    var i, r := TextStart(s), Trim(s);
    TrimRangeBeforeSuffix(s, q, i, i + |r|);
    TrimOfRange(s + q, i, i + |r|);
  }

  /** Non-alphanumeric padding added at either end does not change the trim: `#f44336` trims to `f44336`. */
  lemma TrimIgnoresPadding(p: string, s: string, q: string)
    requires NoAlphanumerics(p) && NoAlphanumerics(q)
    ensures Trim(p + s + q) == Trim(s)
  {
    TrimIgnoresSuffix(p + s, q);
    TrimIgnoresPrefix(p, s);
  }

  /** Trimming twice trims no more than trimming once. */
  lemma TrimIdempotent(s: string)
    ensures Trim(Trim(s)) == Trim(s)
  {
    var r := Trim(s);
    TrimOfRange(r, 0, |r|);
  }

  /** The trim leaves `s` as it is exactly when `s` is empty or starts and ends with a letter or digit. */
  lemma TrimFixedPoint(s: string)
    ensures Trim(s) == s <==> (s == [] || (IsAlphanumeric(s[0]) && IsAlphanumeric(s[|s| - 1])))
  {
    if s == [] || (IsAlphanumeric(s[0]) && IsAlphanumeric(s[|s| - 1])) {
      TrimOfRange(s, 0, |s|);
    }
  }

  /** Strings that agree up to case trim to strings that agree up to case. */
  lemma TrimSameUpToCase(s: string, s': string)
    requires SameUpToCase(s, s')
    ensures SameUpToCase(Trim(s), Trim(s'))
  {
    var i, r := TextStart(s), Trim(s);
    var j := i + |r|;
    forall k | 0 <= k < |s| ensures IsAlphanumeric(s[k]) <==> IsAlphanumeric(s'[k]) {
      SameLowerAgrees(s[k], s'[k]);
    }
    assert IsTrimRange(s', i, j);
    TrimOfRange(s', i, j);
  }
}
