/** Whitespace trimming as done by JavaScript's `String.prototype.trim`,
    which the todo form applies to its input before deciding whether to
    add a todo. */
module Text {

  /** The code points ECMAScript treats as WhiteSpace or LineTerminator:
      TAB, VT, FF, SPACE, NBSP, ZWNBSP (BOM), every Unicode "Zs" space
      separator, LF, CR, LINE SEPARATOR and PARAGRAPH SEPARATOR. */
  predicate IsWhitespace(c: char) {
    || c == '\t' || c == '\U{B}' || c == '\U{C}' || c == ' '
    || c == '\U{A0}' || c == '\U{FEFF}'
    || c == '\U{1680}' || ('\U{2000}' <= c <= '\U{200A}')
    || c == '\U{202F}' || c == '\U{205F}' || c == '\U{3000}'
    || c == '\n' || c == '\r' || c == '\U{2028}' || c == '\U{2029}'
  }

  /** Every character of `s` is whitespace. */
  predicate AllWhitespace(s: string) {
    forall i :: 0 <= i < |s| ==> IsWhitespace(s[i])
  }

  /** `s` neither starts nor ends with whitespace. */
  predicate IsTrimmed(s: string) {
    |s| > 0 ==> !IsWhitespace(s[0]) && !IsWhitespace(s[|s| - 1])
  }

  /** `s[lo..hi]` is what is left of `s` once its leading and trailing
      whitespace is cut off: everything outside is whitespace, and the slice,
      if not empty, starts and ends with a non-whitespace character. */
  predicate TrimBounds(s: string, lo: nat, hi: nat) {
    && lo <= hi <= |s|
    && (forall i :: 0 <= i < lo ==> IsWhitespace(s[i]))
    && (forall i :: hi <= i < |s| ==> IsWhitespace(s[i]))
    && (lo < hi ==> !IsWhitespace(s[lo]) && !IsWhitespace(s[hi - 1]))
  }

  /** The first position at or after `i` that does not hold whitespace, or
      `|s|` if there is none. */
  function SkipLeading(s: string, i: nat): (lo: nat)
    requires i <= |s|
    ensures i <= lo <= |s|
    ensures forall k :: i <= k < lo ==> IsWhitespace(s[k])
    ensures lo < |s| ==> !IsWhitespace(s[lo])
    decreases |s| - i
  {
    if i < |s| && IsWhitespace(s[i]) then SkipLeading(s, i + 1) else i
  }

  /** The end of `s[lo..j]` once its trailing whitespace is dropped. */
  function SkipTrailing(s: string, lo: nat, j: nat): (hi: nat)
    requires lo <= j <= |s|
    ensures lo <= hi <= j
    ensures forall k :: hi <= k < j ==> IsWhitespace(s[k])
    ensures lo < hi ==> !IsWhitespace(s[hi - 1])
    decreases j
  {
    if lo < j && IsWhitespace(s[j - 1]) then SkipTrailing(s, lo, j - 1) else j
  }

  /** The number of whitespace characters `s` starts with. */
  function LeadingWhitespace(s: string): (n: nat)
    ensures n <= |s|
    ensures AllWhitespace(s[..n])
  {
    SkipLeading(s, 0)
  }

  /** `String.prototype.trim`: the slice of `s` left once the leading and
      trailing whitespace is gone. It is empty exactly when `s` holds
      nothing but whitespace. */
  function Trim(s: string): (r: string)
    ensures IsTrimmed(r)
    ensures var lo := LeadingWhitespace(s);
      TrimBounds(s, lo, lo + |r|) && r == s[lo..lo + |r|]
    ensures r == [] <==> AllWhitespace(s)
  {
    var lo := SkipLeading(s, 0);
    var hi := SkipTrailing(s, lo, |s|);
    assert hi > lo ==> s[lo..hi][0] == s[lo] && s[lo..hi][hi - lo - 1] == s[hi - 1];
    assert hi == lo ==> AllWhitespace(s);
    s[lo..hi]
  }

  /** The bounds of a trim are unique: any `lo`, `hi` meeting `TrimBounds`
      cut out exactly `Trim(s)`. */
  lemma TrimUnique(s: string, lo: nat, hi: nat)
    requires TrimBounds(s, lo, hi)
    ensures Trim(s) == s[lo..hi]
  {
    var r := Trim(s);
    if lo == hi {
      assert AllWhitespace(s) by {
        forall i | 0 <= i < |s| ensures IsWhitespace(s[i]) {
          if i < lo {} else { assert hi <= i; }
        }
      }
    } else {
      assert !AllWhitespace(s) by { assert !IsWhitespace(s[lo]); }
      assert r != [];
    }
  }

  /** Trimming twice is the same as trimming once. */
  lemma TrimIdempotent(s: string)
    ensures Trim(Trim(s)) == Trim(s)
  {
    var r := Trim(s);
    assert r[0..|r|] == r;
    if r == [] {
      assert Trim(r) == [];
    } else {
      TrimUnique(r, 0, |r|);
    }
  }
}
