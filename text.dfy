/** The string operations of JavaScript that the blocks rely on. */
module Text {

  /** JavaScript's WhiteSpace and LineTerminator characters: the set that
      `String.prototype.trim` strips and that `\s` matches in a regular expression. */
  predicate IsSpace(c: char)
  {
    || c == '\t' || c == '\n' || c == '\U{000B}' || c == '\U{000C}' || c == '\r'
    || c == ' ' || c == '\U{00A0}' || c == '\U{1680}'
    || ('\U{2000}' <= c <= '\U{200A}')
    || c == '\U{2028}' || c == '\U{2029}' || c == '\U{202F}' || c == '\U{205F}'
    || c == '\U{3000}' || c == '\U{FEFF}'
  }

  /** The end of the run of white space that starts at index `i`. */
  function SkipSpace(s: string, i: nat): (n: nat)
    requires i <= |s|
    ensures i <= n <= |s|
    ensures forall k :: i <= k < n ==> IsSpace(s[k])
    ensures n < |s| ==> !IsSpace(s[n])
    decreases |s| - i
  {
    if i < |s| && IsSpace(s[i]) then SkipSpace(s, i + 1) else i
  }

  /** The start of the run of white space that ends just before index `j`. */
  function SkipSpaceBack(s: string, j: nat): (n: nat)
    requires j <= |s|
    ensures n <= j
    ensures forall k :: n <= k < j ==> IsSpace(s[k])
    ensures n > 0 ==> !IsSpace(s[n - 1])
  {
    if j > 0 && IsSpace(s[j - 1]) then SkipSpaceBack(s, j - 1) else j
  }

  /** Number of white-space characters at the start of `s`. */
  function Leading(s: string): (n: nat)
    ensures n <= |s|
    ensures forall i :: 0 <= i < n ==> IsSpace(s[i])
    ensures n < |s| ==> !IsSpace(s[n])
  {
    SkipSpace(s, 0)
  }

  /** `s.trim()`: `s` without its leading and trailing white space. It is empty
      exactly when `s` is all white space; otherwise it starts and ends with a
      non-space character and is the slice of `s` that follows the leading white
      space and is followed only by white space. */
  function Trim(s: string): (r: string)
    ensures r == [] <==> forall i :: 0 <= i < |s| ==> IsSpace(s[i])
    ensures r != [] ==> !IsSpace(r[0]) && !IsSpace(r[|r| - 1])
    ensures Leading(s) + |r| <= |s| && r == s[Leading(s)..Leading(s) + |r|]
    ensures forall i :: Leading(s) + |r| <= i < |s| ==> IsSpace(s[i])
  {
    var a := Leading(s);
    if a == |s| then []
    else
      var b := SkipSpaceBack(s, |s|);
      assert a < b by {
        assert !IsSpace(s[a]);
      }
      s[a..b]
  }

  /** Trimming twice is trimming once. */
  lemma TrimIdempotent(s: string)
    ensures Trim(Trim(s)) == Trim(s)
  {
    var t := Trim(s);
    if t != [] {
      TrimKeepsTrimmed(t);
    }
  }

  /** A string that neither starts nor ends with white space is its own trim. */
  lemma TrimKeepsTrimmed(s: string)
    requires s != [] && !IsSpace(s[0]) && !IsSpace(s[|s| - 1])
    ensures Trim(s) == s
  {
    assert Leading(s) == 0;
    assert SkipSpaceBack(s, |s|) == |s|;
  }

  /** The leading white space is the only run of white space that ends at a
      non-space character (or at the end). */
  lemma LeadingIs(s: string, n: nat)
    requires n <= |s| && (forall i :: 0 <= i < n ==> IsSpace(s[i]))
    requires n < |s| ==> !IsSpace(s[n])
    ensures Leading(s) == n
  {
  }

  /** The trim of `s` is the slice `[a, e)` whenever only white space lies outside
      it and it starts and ends with a non-space character. */
  lemma TrimIs(s: string, a: nat, e: nat)
    requires a < e <= |s|
    requires forall i :: 0 <= i < a ==> IsSpace(s[i])
    requires forall i :: e <= i < |s| ==> IsSpace(s[i])
    requires !IsSpace(s[a]) && !IsSpace(s[e - 1])
    ensures Trim(s) == s[a..e]
  {
    var r := Trim(s);
    LeadingIs(s, a);
    assert r != [];
    var f := a + |r|;
    assert r[|r| - 1] == s[f - 1];
  }

  /** A non-empty trim is bounded by non-space characters of `x`. */
  lemma TrimEnds(x: string)
    requires Trim(x) != []
    ensures !IsSpace(x[Leading(x)]) && !IsSpace(x[Leading(x) + |Trim(x)| - 1])
  {
    var t := Trim(x);
    assert t[0] == x[Leading(x)] && t[|t| - 1] == x[Leading(x) + |t| - 1];
  }

  lemma SliceOfSlice(x: string, a: nat, b: nat, i: nat, j: nat)
    requires a <= i <= j <= b <= |x|
    ensures x[a..b][i - a..j - a] == x[i..j]
  {
    assert forall k :: 0 <= k < j - i ==> x[a..b][i - a..j - a][k] == x[i..j][k];
  }

  /** Trimming ignores extra white space around a string: cutting white space off
      either end of `x` leaves its trim unchanged. */
  lemma TrimPadded(x: string, a: nat, b: nat)
    requires a <= b <= |x|
    requires forall i :: 0 <= i < a ==> IsSpace(x[i])
    requires forall i :: b <= i < |x| ==> IsSpace(x[i])
    ensures Trim(x[a..b]) == Trim(x)
  {
    if Trim(x) == [] {
      var y := x[a..b];
      assert forall i :: 0 <= i < |y| ==> IsSpace(y[i]) by {
        forall i | 0 <= i < |y| ensures IsSpace(y[i]) { assert y[i] == x[a + i]; }
      }
    } else {
      var l := Leading(x);
      var e := l + |Trim(x)|;
      TrimEnds(x);
      assert a <= l && e <= b;
      TrimInner(x, a, b, l, e);
    }
  }

  /** The trim of `x[a..b]` is `x[l..e]` when only white space of `x` lies around
      `[l, e)`, which starts and ends with a non-space character. */
  lemma TrimInner(x: string, a: nat, b: nat, l: nat, e: nat)
    requires a <= l < e <= b <= |x|
    requires forall i :: 0 <= i < l ==> IsSpace(x[i])
    requires forall i :: e <= i < |x| ==> IsSpace(x[i])
    requires !IsSpace(x[l]) && !IsSpace(x[e - 1])
    ensures Trim(x[a..b]) == x[l..e]
  {
    var y := x[a..b];
    forall i | 0 <= i < l - a ensures IsSpace(y[i]) { assert y[i] == x[a + i]; }
    forall i | e - a <= i < |y| ensures IsSpace(y[i]) { assert y[i] == x[a + i]; }
    assert y[l - a] == x[l] && y[e - a - 1] == x[e - 1];
    TrimIs(y, l - a, e - a);
    SliceOfSlice(x, a, b, l, e);
  }

  /** Within `s`, widening the slice `[p, q)` over white space on either side
      does not change its trim. */
  lemma TrimAround(s: string, r: nat, p: nat, q: nat, w: nat)
    requires r <= p <= q <= w <= |s|
    requires forall j :: r <= j < p ==> IsSpace(s[j])
    requires forall j :: q <= j < w ==> IsSpace(s[j])
    ensures Trim(s[p..q]) == Trim(s[r..w])
  {
    var x := s[r..w];
    forall i | 0 <= i < p - r ensures IsSpace(x[i]) { assert x[i] == s[r + i]; }
    forall i | q - r <= i < |x| ensures IsSpace(x[i]) { assert x[i] == s[r + i]; }
    TrimPadded(x, p - r, q - r);
    SliceOfSlice(s, r, w, p, q);
  }

  /** ASCII `A`–`Z` to `a`–`z`; every other character is unchanged. */
  function LowerChar(c: char): (d: char)
  {
    if 'A' <= c <= 'Z' then (c as int - 'A' as int + 'a' as int) as char else c
  }

  /** `s.toLowerCase()` restricted to ASCII letters. */
  function ToLower(s: string): (r: string)
    ensures |r| == |s|
    ensures forall i :: 0 <= i < |s| ==> r[i] == LowerChar(s[i])
    ensures forall i :: 0 <= i < |r| ==> !('A' <= r[i] <= 'Z')
  {
    seq(|s|, i requires 0 <= i < |s| => LowerChar(s[i]))
  }
}
