/** The few string operations of the Python standard library that the
    ingestion and prompt code relies on: str.isspace, str.strip,
    str.replace("\n", " ") and str(int) for a non-negative int. */
module Text {

  /** Python's str.isspace() on a single character: the ASCII controls
      TAB..CR and FS..US, the space, NEL, NBSP and the Unicode space
      separators. */
  predicate IsSpace(c: char) {
    c == ' ' || ('\t' <= c <= '\r') || ('\U{1C}' <= c <= '\U{1F}')
    || c == '\U{85}' || c == '\U{A0}' || c == '\U{1680}'
    || ('\U{2000}' <= c <= '\U{200A}') || c == '\U{2028}' || c == '\U{2029}'
    || c == '\U{202F}' || c == '\U{205F}' || c == '\U{3000}'
  }

  /** `not s or not s.strip()`: the string is empty or holds only whitespace. */
  predicate IsBlank(s: string) {
    forall i :: 0 <= i < |s| ==> IsSpace(s[i])
  }

  /** str.lstrip(): the longest suffix that does not start with whitespace. */
  function StripLeft(s: string): (r: string)
    ensures |r| <= |s| && r == s[|s| - |r|..]
    ensures r == [] || !IsSpace(r[0])
    ensures forall i :: 0 <= i < |s| - |r| ==> IsSpace(s[i])
  {
    if s != [] && IsSpace(s[0]) then StripLeft(s[1..]) else s
  }

  /** str.rstrip(): the longest prefix that does not end with whitespace. */
  function StripRight(s: string): (r: string)
    ensures |r| <= |s| && r == s[..|r|]
    ensures r == [] || !IsSpace(r[|r| - 1])
    ensures forall i :: |r| <= i < |s| ==> IsSpace(s[i])
  {
    if s != [] && IsSpace(s[|s| - 1]) then StripRight(s[..|s| - 1]) else s
  }

  /** str.strip(). */
  function Strip(s: string): (r: string)
    ensures |r| <= |s|
    ensures r == [] || (!IsSpace(r[0]) && !IsSpace(r[|r| - 1]))
  {
    StripRight(StripLeft(s))
  }

  /** Stripping leaves nothing exactly when the string is blank: this is why
      `not text.strip()` is the blank test. */
  lemma StripEmptyIffBlank(s: string)
    ensures Strip(s) == [] <==> IsBlank(s)
  {
  }

  /** str.replace("\n", " "). */
  function ReplaceNewlines(s: string): (r: string)
    ensures |r| == |s|
    ensures forall i :: 0 <= i < |s| ==> r[i] != '\n'
    ensures forall i :: 0 <= i < |s| && s[i] != '\n' ==> r[i] == s[i]
  {
    seq(|s|, i requires 0 <= i < |s| => if s[i] == '\n' then ' ' else s[i])
  }

  predicate NoNewline(s: string) {
    forall i :: 0 <= i < |s| ==> s[i] != '\n'
  }

  /** The text of one retrieved chunk as it goes into a prompt:
      `text.replace("\n", " ").strip()`: a slice of the text with line breaks
      replaced, cut only where there is whitespace. It holds no line break
      and does not start or end with whitespace. */
  function CleanText(s: string): (r: string)
    ensures NoNewline(r)
    ensures r == [] || (!IsSpace(r[0]) && !IsSpace(r[|r| - 1]))
  {
    var t := ReplaceNewlines(s);
    var l := StripLeft(t);
    var r := StripRight(l);
    NoNewlineSlice(t, |t| - |l|, |t|);
    NoNewlineSlice(l, 0, |r|);
    assert r == [] || r[0] == l[0];
    r
  }

  /** The cleaned text is the text with line breaks replaced, cut only where
      there is whitespace. */
  lemma CleanTextTrims(s: string)
    ensures exists lo, hi :: Trimmed(ReplaceNewlines(s), CleanText(s), lo, hi)
  {
    assert CleanText(s) == Strip(ReplaceNewlines(s));
    StripTrims(ReplaceNewlines(s));
  }

  /** str.strip() returns a slice of its input, and everything it cuts off at
      either end is whitespace. */
  lemma StripTrims(s: string)
    ensures exists lo, hi :: Trimmed(s, Strip(s), lo, hi)
  {
    var l := StripLeft(s);
    var r := StripRight(l);
    var lo := |s| - |l|;
    TrimmedTwice(s, l, r, lo);
    assert Trimmed(s, Strip(s), lo, lo + |r|);
  }

  /** Cutting whitespace from the front and then from the back of what is
      left cuts only whitespace from t. */
  lemma TrimmedTwice(t: string, l: string, r: string, lo: nat)
    requires lo <= |t| && l == t[lo..] && forall i :: 0 <= i < lo ==> IsSpace(t[i])
    requires |r| <= |l| && r == l[..|r|] && forall i :: |r| <= i < |l| ==> IsSpace(l[i])
    ensures Trimmed(t, r, lo, lo + |r|)
  {
    forall i | 0 <= i < lo ensures IsSpace(t[..lo][i]) {
      assert t[..lo][i] == t[i];
    }
    var tail := t[lo + |r|..];
    forall i | 0 <= i < |tail| ensures IsSpace(tail[i]) {
      assert tail[i] == l[|r| + i];
    }
  }

  /** r is t[lo..hi] and what is cut off at either end is blank: r is t
      with whitespace cut from both ends. */
  predicate Trimmed(t: string, r: string, lo: int, hi: int) {
    0 <= lo <= hi <= |t| && r == t[lo..hi] && IsBlank(t[..lo]) && IsBlank(t[hi..])
  }

  /** A slice of a string without line breaks has none either. */
  lemma NoNewlineSlice(s: string, lo: nat, hi: nat)
    requires NoNewline(s) && lo <= hi <= |s|
    ensures NoNewline(s[lo..hi])
  {
    forall i | 0 <= i < hi - lo ensures s[lo..hi][i] != '\n' {
      assert s[lo..hi][i] == s[lo + i];
    }
  }

  function DigitChar(d: nat): char
    requires d < 10
  {
    "0123456789"[d]
  }

  function DigitValue(c: char): nat {
    if '0' <= c <= '9' then (c as int - '0' as int) as nat else 0
  }

  /** str(n) for n >= 0: the decimal digits of n without leading zeros. */
  function NatToString(n: nat): (r: string)
    ensures |r| >= 1
    ensures forall i :: 0 <= i < |r| ==> '0' <= r[i] <= '9'
    ensures r[0] == '0' ==> n == 0
  {
    if n < 10 then [DigitChar(n)] else NatToString(n / 10) + [DigitChar(n % 10)]
  }

  /** int(s) for a string of decimal digits. */
  function ParseDecimal(s: string): nat {
    if s == [] then 0 else ParseDecimal(s[..|s| - 1]) * 10 + DigitValue(s[|s| - 1])
  }

  lemma DigitRoundTrip(d: nat)
    requires d < 10
    ensures DigitValue(DigitChar(d)) == d
  {
  }

  /** Reading back the decimal text of n gives n. */
  lemma {:induction false} ParseNatToString(n: nat)
    ensures ParseDecimal(NatToString(n)) == n
  {
    var s := NatToString(n);
    if n < 10 {
      DigitRoundTrip(n);
      assert s[..|s| - 1] == [];
    } else {
      var q, d := n / 10, n % 10;
      ParseNatToString(q);
      DigitRoundTrip(d);
      assert s == NatToString(q) + [DigitChar(d)];
      assert s[..|s| - 1] == NatToString(q);
      assert ParseDecimal(s) == ParseDecimal(NatToString(q)) * 10 + DigitValue(DigitChar(d));
    }
  }

  /** Different numbers print differently. */
  lemma NatToStringInjective(m: nat, n: nat)
    requires m != n
    ensures NatToString(m) != NatToString(n)
  {
    ParseNatToString(m);
    ParseNatToString(n);
  }
}
