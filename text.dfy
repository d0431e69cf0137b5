/** JavaScript's `String.prototype.trim`, which the journal applies to the
    draft before saving it. */
module JsText {

  /** ECMAScript's WhiteSpace and LineTerminator code points: tab, vertical
      tab, form feed, space, no-break space, the byte order mark, the Unicode
      space separators, line feed, carriage return, and the line and paragraph
      separators. */
  predicate IsWhite(c: char)
  {
    || c == '\t' || c == '\n' || c == '\U{B}' || c == '\U{C}' || c == '\r'
    || c == ' ' || c == '\U{A0}' || c == '\U{1680}'
    || ('\U{2000}' <= c <= '\U{200A}')
    || c == '\U{2028}' || c == '\U{2029}' || c == '\U{202F}' || c == '\U{205F}'
    || c == '\U{3000}' || c == '\U{FEFF}'
  }

  ghost predicate AllWhite(s: string)
  {
    forall k :: 0 <= k < |s| ==> IsWhite(s[k])
  }

  /** Drop leading white space. */
  function TrimStart(s: string): string
  {
    if |s| > 0 && IsWhite(s[0]) then TrimStart(s[1..]) else s
  }

  /** Drop trailing white space. */
  function TrimEnd(s: string): string
  {
    if |s| > 0 && IsWhite(s[|s| - 1]) then TrimEnd(s[..|s| - 1]) else s
  }

  /** `s.trim()`. */
  function Trim(s: string): string
  {
    TrimEnd(TrimStart(s))
  }

  /** `TrimStart` drops a white prefix and stops at the first other character. */
  lemma {:induction false} TrimStartShape(s: string) returns (i: nat)
    ensures i <= |s| && TrimStart(s) == s[i..]
    ensures forall k :: 0 <= k < i ==> IsWhite(s[k])
    ensures i < |s| ==> !IsWhite(s[i])
  {
    if |s| > 0 && IsWhite(s[0]) {
      var i' := TrimStartShape(s[1..]);
      i := i' + 1;
      assert s[1..][i'..] == s[i..];
      forall k | 0 < k < i ensures IsWhite(s[k]) {
        assert s[k] == s[1..][k - 1];
      }
      if i < |s| {
        assert s[i] == s[1..][i'];
      }
    } else {
      i := 0;
    }
  }

  /** `TrimEnd` drops a white suffix and stops at the last other character. */
  lemma {:induction false} TrimEndShape(s: string) returns (j: nat)
    ensures j <= |s| && TrimEnd(s) == s[..j]
    ensures forall k :: j <= k < |s| ==> IsWhite(s[k])
    ensures j > 0 ==> !IsWhite(s[j - 1])
  {
    if |s| > 0 && IsWhite(s[|s| - 1]) {
      var init := s[..|s| - 1];
      j := TrimEndShape(init);
      assert init[..j] == s[..j];
      forall k | j <= k < |s| - 1 ensures IsWhite(s[k]) {
        assert s[k] == init[k];
      }
      if j > 0 {
        assert s[j - 1] == init[j - 1];
      }
    } else {
      j := |s|;
    }
  }

  /** `trim` cuts the input into leading white space, the result and trailing
      white space, and the result neither starts nor ends with white space:
      it strips as much as it can and nothing else. */
  lemma TrimShape(s: string) returns (i: nat, j: nat)
    ensures i <= j <= |s| && Trim(s) == s[i..j]
    ensures forall k :: 0 <= k < i ==> IsWhite(s[k])
    ensures forall k :: j <= k < |s| ==> IsWhite(s[k])
    ensures i < j ==> !IsWhite(s[i]) && !IsWhite(s[j - 1])
  {
    i := TrimStartShape(s);
    var t := s[i..];
    var j' := TrimEndShape(t);
    j := i + j';
    assert t[..j'] == s[i..j];
    forall k | j <= k < |s| ensures IsWhite(s[k]) {
      assert s[k] == t[k - i];
    }
    if i < j {
      assert s[i] == t[0];
      assert s[j - 1] == t[j' - 1];
    }
  }

  /** The save is ignored exactly when the draft is all white space. */
  lemma TrimEmptyIff(s: string)
    ensures Trim(s) == [] <==> AllWhite(s)
  {
    var i, j := TrimShape(s);
    if Trim(s) == [] {
      assert i == j;
    } else {
      assert !IsWhite(s[i]);
    }
  }

  /** Trimming a trimmed string changes nothing. */
  lemma TrimIdempotent(s: string)
    ensures Trim(Trim(s)) == Trim(s)
  {
    var i, j := TrimShape(s);
    var r := Trim(s);
    if r != [] {
      assert r[0] == s[i] && r[|r| - 1] == s[j - 1];
      assert TrimStart(r) == r;
      assert TrimEnd(r) == r;
    }
  }
}
