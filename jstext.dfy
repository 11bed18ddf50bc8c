/** The part of JavaScript's `String.prototype.trim` the prompt dialog relies
    on: strip white space and line terminators from both ends. Strings are
    sequences of code units. */
module JsText {

  /** ECMAScript's WhiteSpace and LineTerminator code points (section 12.2 and
      12.3 of ECMA-262): TAB, VT, FF, SP, NBSP, ZWNBSP, the Zs category, LF,
      CR, LS and PS. */
  predicate IsWhiteSpace(c: char) {
    || c == '\t' || c == '\n' || c == '\r' || c == ' '
    || c == '\U{000B}' || c == '\U{000C}' || c == '\U{00A0}' || c == '\U{FEFF}'
    || c == '\U{1680}' || ('\U{2000}' <= c <= '\U{200A}')
    || c == '\U{2028}' || c == '\U{2029}' || c == '\U{202F}' || c == '\U{205F}' || c == '\U{3000}'
  }

  predicate AllWhiteSpace(s: string) {
    forall k :: 0 <= k < |s| ==> IsWhiteSpace(s[k])
  }

  /** Neither end of `s` is white space. */
  predicate IsTrimmed(s: string) {
    s == [] || (!IsWhiteSpace(s[0]) && !IsWhiteSpace(s[|s| - 1]))
  }

  /** `trimStart`: the suffix left after dropping every leading white space. */
  function TrimStart(s: string): (r: string)
    ensures |r| <= |s| && r == s[|s| - |r|..]
    ensures r == [] || !IsWhiteSpace(r[0])
    ensures forall k :: 0 <= k < |s| - |r| ==> IsWhiteSpace(s[k])
  {
    if |s| > 0 && IsWhiteSpace(s[0]) then TrimStart(s[1..]) else s
  }

  /** `trimEnd`: the prefix left after dropping every trailing white space. */
  function TrimEnd(s: string): (r: string)
    ensures |r| <= |s| && r == s[..|r|]
    ensures r == [] || !IsWhiteSpace(r[|r| - 1])
    ensures forall k :: |r| <= k < |s| ==> IsWhiteSpace(s[k])
  {
    if |s| > 0 && IsWhiteSpace(s[|s| - 1]) then TrimEnd(s[..|s| - 1]) else s
  }

  function Trim(s: string): string {
    TrimEnd(TrimStart(s))
  }

  /** The trimmed string has no white space at either end and is no longer
      than the input. */
  lemma TrimIsTrimmed(s: string)
    ensures IsTrimmed(Trim(s)) && |Trim(s)| <= |s|
  {
    var u := TrimStart(s);
    var t := TrimEnd(u);
    if t != [] {
      assert t[0] == u[0];
    }
  }

  /** Trimming leaves a contiguous piece of the input: what remains after the
      leading white space is dropped, cut before the trailing white space. */
  lemma TrimIsInnerSlice(s: string)
    ensures Trim(s) == s[|s| - |TrimStart(s)|..|s| - |TrimStart(s)| + |Trim(s)|]
  {
    var u := TrimStart(s);
    var t := TrimEnd(u);
    assert t == u[..|t|];
    SliceOfSuffix(s, |s| - |u|, |t|);
  }

  lemma SliceOfSuffix(s: string, i: nat, n: nat)
    requires i + n <= |s|
    ensures s[i..][..n] == s[i..i + n]
  {
  }

  lemma {:induction false} TrimStartOfWhiteSpacePrefix(p: string, m: string)
    requires AllWhiteSpace(p)
    requires m == [] || !IsWhiteSpace(m[0])
    ensures TrimStart(p + m) == m
  {
    if p != [] {
      assert (p + m)[1..] == p[1..] + m;
      TrimStartOfWhiteSpacePrefix(p[1..], m);
    }
  }

  lemma {:induction false} TrimEndOfWhiteSpaceSuffix(m: string, q: string)
    requires AllWhiteSpace(q)
    requires m == [] || !IsWhiteSpace(m[|m| - 1])
    ensures TrimEnd(m + q) == m
  {
    if q != [] {
      assert (m + q)[..|m + q| - 1] == m + q[..|q| - 1];
      TrimEndOfWhiteSpaceSuffix(m, q[..|q| - 1]);
    } else {
      assert m + q == m;
    }
  }

  /** Reference characterisation: surrounding a trimmed string with white
      space on both sides and trimming gives it back. Together with
      TrimIsInnerSlice this pins `Trim(s)` down uniquely. */
  lemma TrimOfPadded(p: string, m: string, q: string)
    requires AllWhiteSpace(p) && AllWhiteSpace(q) && IsTrimmed(m)
    ensures Trim(p + m + q) == m
  {
    if m == [] {
      assert p + m + q == p + q;
      assert AllWhiteSpace(p + q);
      TrimStartOfWhiteSpacePrefix(p + q, []);
      assert p + q + [] == p + q;
      assert TrimStart(p + q) == [];
    } else {
      assert p + m + q == p + (m + q);
      TrimStartOfWhiteSpacePrefix(p, m + q);
      TrimEndOfWhiteSpaceSuffix(m, q);
    }
  }

  /** Trimming twice is trimming once. */
  lemma TrimIdempotent(s: string)
    ensures Trim(Trim(s)) == Trim(s)
  {
    var t := Trim(s);
    TrimIsTrimmed(s);
    assert [] + t + [] == t;
    TrimOfPadded([], t, []);
  }

  /** A character that is not white space survives trimming somewhere. */
  lemma TrimKeepsNonWhiteSpace(s: string, k: nat)
    requires k < |s| && !IsWhiteSpace(s[k])
    ensures Trim(s) != []
  {
    var u := TrimStart(s);
    assert u[k - (|s| - |u|)] == s[k];
  }

  /** Trimming yields the empty string exactly when the input is all white space. */
  lemma TrimEmptyIff(s: string)
    ensures Trim(s) == [] <==> AllWhiteSpace(s)
  {
    if AllWhiteSpace(s) {
      assert [] + [] + s == s;
      TrimOfPadded([], [], s);
    } else {
      var k :| 0 <= k < |s| && !IsWhiteSpace(s[k]);
      TrimKeepsNonWhiteSpace(s, k);
    }
  }
}
