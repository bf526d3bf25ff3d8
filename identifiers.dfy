/**
 * Names for workflow inputs and outputs (src/comfy_pack/utils.py):
 * `_normalize_to_identifier` and the ASCII reading of `str.isidentifier`.
 */
module Identifiers {
  import opened PyStr

  predicate IsAsciiLetter(c: char) { 'a' <= c <= 'z' || 'A' <= c <= 'Z' }

  /** A character of the regex class `[a-zA-Z0-9_]`. */
  predicate IsWordChar(c: char) { IsAsciiLetter(c) || IsDigit(c) || c == '_' }

  /** A character of a normalised name: `[a-z0-9_]`. */
  predicate IsNameChar(c: char) { 'a' <= c <= 'z' || IsDigit(c) || c == '_' }

  /** `str.isidentifier()`, restricted to ASCII. */
  predicate IsIdentifier(s: string) {
    |s| > 0 && (IsAsciiLetter(s[0]) || s[0] == '_')
    && forall i :: 0 <= i < |s| ==> IsWordChar(s[i])
  }

  predicate IsUnderscore(c: char) { c == '_' }

  /** No two adjacent underscores. */
  predicate NoDoubleUnderscore(s: string) {
    forall i :: 0 <= i < |s| - 1 ==> !(s[i] == '_' && s[i + 1] == '_')
  }

  /** `re.sub(r"[^a-zA-Z0-9_]", "_", s)` */
  function ReplaceNonWord(s: string): (r: string)
    ensures |r| == |s|
    ensures forall i :: 0 <= i < |s| ==> r[i] == if IsWordChar(s[i]) then s[i] else '_'
  {
    seq(|s|, i requires 0 <= i < |s| => if IsWordChar(s[i]) then s[i] else '_')
  }

  /** `re.sub(r"_+", "_", s)`: every run of underscores becomes one underscore. */
  function CollapseUnderscores(s: string): (r: string)
    ensures |r| <= |s|
    ensures |s| > 0 ==> |r| > 0 && r[0] == s[0]
    ensures forall x :: x in r ==> x in s
    ensures NoDoubleUnderscore(r)
    ensures NoDoubleUnderscore(s) ==> r == s
    decreases |s|
  {
    if |s| < 2 then s
    else if s[0] == '_' && s[1] == '_' then CollapseUnderscores(s[1..])
    else
      var rest := CollapseUnderscores(s[1..]);
      assert NoDoubleUnderscore(s) ==> NoDoubleUnderscore(s[1..]);
      assert NoDoubleUnderscore(s) ==> [s[0]] + s[1..] == s;
      [s[0]] + rest
  }

  /** Line 38-39 of `_normalize_to_identifier`: an underscore goes before a leading digit. */
  function GuardDigit(a: string): (b: string)
    requires a != []
  {
    if IsDigit(a[0]) then "_" + a else a
  }

  /** The name before lower-casing: lines 36-43 of `_normalize_to_identifier`. */
  function Stripped(s: string): string
    requires s != []
  {
    Trim(CollapseUnderscores(GuardDigit(ReplaceNonWord(s))), IsUnderscore)
  }

  /** `_normalize_to_identifier` (src/comfy_pack/utils.py:32-44). */
  function Normalize(s: string): string {
    if s == "" then "_"
    else
      var d := Stripped(s);
      Lower(if d == "" then "_" else d)
  }

  /** What every normalised name looks like. */
  predicate WellFormedName(t: string) {
    && t != []
    && (forall i :: 0 <= i < |t| ==> IsNameChar(t[i]))
    && NoDoubleUnderscore(t)
    && (t == "_" || (t[0] != '_' && t[|t| - 1] != '_'))
  }

  /** A slice of a string without `__` has no `__` either. */
  lemma SliceNoDoubleUnderscore(s: string, i: nat, j: nat)
    requires i <= j <= |s| && NoDoubleUnderscore(s)
    ensures NoDoubleUnderscore(s[i..j])
  {
    forall k | 0 <= k < j - i - 1 ensures !(s[i..j][k] == '_' && s[i..j][k + 1] == '_') {
      assert s[i..j][k] == s[i + k] && s[i..j][k + 1] == s[i + k + 1];
    }
  }

  /** Stripping underscores keeps a slice of the string. */
  lemma TrimIsSlice(c: string) returns (i: nat, j: nat)
    ensures i <= j <= |c| && Trim(c, IsUnderscore) == c[i..j]
  {
    var l := TrimLeft(c, IsUnderscore);
    var d := TrimRight(l, IsUnderscore);
    i := |c| - |l|;
    j := i + |d|;
    assert l == c[i..];
    assert d == l[..|d|];
    assert c[i..][..|d|] == c[i..j];
  }

  /** Before lower-casing, the name is made of word characters, has no `__` and no `_` at its ends. */
  lemma StrippedShape(s: string)
    requires s != []
    ensures var d := Stripped(s);
      && (forall k :: 0 <= k < |d| ==> IsWordChar(d[k]))
      && NoDoubleUnderscore(d)
      && (d != [] ==> d[0] != '_' && d[|d| - 1] != '_')
  {
    var b := GuardDigit(ReplaceNonWord(s));
    assert forall x :: x in b ==> IsWordChar(x);
    var c := CollapseUnderscores(b);
    var i, j := TrimIsSlice(c);
    SliceNoDoubleUnderscore(c, i, j);
    var d := Stripped(s);
    assert forall k :: 0 <= k < |d| ==> d[k] in c;
  }

  /** Lower-casing a string of word characters keeps every underscore where it was. */
  lemma LowerWordChars(e: string)
    requires forall k :: 0 <= k < |e| ==> IsWordChar(e[k])
    ensures var r := Lower(e);
      && (forall k :: 0 <= k < |r| ==> IsNameChar(r[k]))
      && (forall k :: 0 <= k < |r| ==> (r[k] == '_' <==> e[k] == '_'))
  {
  }

  /**
   * `_normalize_to_identifier` always yields a non-empty name over `[a-z0-9_]`
   * without `__`, whose ends are not `_` unless the name is exactly `"_"`.
   */
  lemma NormalizeWellFormed(s: string)
    ensures WellFormedName(Normalize(s))
  {
    if s != "" {
      StrippedShape(s);
      var d := Stripped(s);
      var e := if d == "" then "_" else d;
      LowerWordChars(e);
      var r := Lower(e);
      assert NoDoubleUnderscore(r) by {
        forall k | 0 <= k < |r| - 1 ensures !(r[k] == '_' && r[k + 1] == '_') {
          assert e[k] == '_' ==> e[k + 1] != '_';
        }
      }
    }
  }

  /** A well-formed name contains no character that the first replacement or lower-casing would change. */
  lemma WellFormedFixed(t: string)
    requires WellFormedName(t)
    ensures ReplaceNonWord(t) == t && Lower(t) == t
  {
  }

  /** Underscores only at neither end: stripping `_` is the identity. */
  lemma TrimUnguarded(t: string)
    requires t != [] && t[0] != '_' && t[|t| - 1] != '_'
    ensures Trim(t, IsUnderscore) == t
  {
    assert TrimLeft(t, IsUnderscore) == t;
    assert TrimRight(t, IsUnderscore) == t;
  }

  /** The underscore put before a leading digit is stripped again. */
  lemma TrimGuarded(t: string)
    requires t != [] && t[0] != '_' && t[|t| - 1] != '_'
    ensures Trim("_" + t, IsUnderscore) == t
  {
    var b := "_" + t;
    assert b[1..] == t;
    assert TrimLeft(b, IsUnderscore) == TrimLeft(t, IsUnderscore);
    TrimUnguarded(t);
  }

  /** Putting `_` before a string that starts with a digit creates no `__`. */
  lemma GuardNoDouble(t: string)
    requires t != [] && IsDigit(t[0]) && NoDoubleUnderscore(t)
    ensures NoDoubleUnderscore("_" + t)
  {
    var b := "_" + t;
    forall k | 0 <= k < |b| - 1 ensures !(b[k] == '_' && b[k + 1] == '_') {
      if k > 0 { assert b[k] == t[k - 1] && b[k + 1] == t[k]; }
    }
  }

  /** Stripping a well-formed name changes nothing, except that `"_"` strips to nothing. */
  lemma StrippedOfWellFormed(t: string)
    requires WellFormedName(t)
    ensures Stripped(t) == if t == "_" then "" else t
  {
    WellFormedFixed(t);
    if IsDigit(t[0]) {
      assert GuardDigit(t) == "_" + t;
      GuardNoDouble(t);
      TrimGuarded(t);
    } else if t == "_" {
      assert CollapseUnderscores(t) == t;
      assert TrimLeft(t, IsUnderscore) == TrimLeft("", IsUnderscore);
    } else {
      assert CollapseUnderscores(t) == t;
      TrimUnguarded(t);
    }
  }

  /** Normalising a normalised name returns it unchanged. */
  lemma NormalizeIdempotent(s: string)
    ensures Normalize(Normalize(s)) == Normalize(s)
  {
    var t := Normalize(s);
    NormalizeWellFormed(s);
    WellFormedFixed(t);
    StrippedOfWellFormed(t);
  }

  /** Collapsing keeps the second character when the string starts with `_` then a non-`_`. */
  lemma CollapseSecond(b: string)
    requires |b| >= 2 && b[0] == '_' && b[1] != '_'
    ensures var c := CollapseUnderscores(b); |c| >= 2 && c[1] == b[1]
  {
    assert CollapseUnderscores(b) == [b[0]] + CollapseUnderscores(b[1..]);
  }

  /**
   * A leading digit survives: the `_` put in front of it (line 38-39) is
   * stripped again (line 42), so the result is not an identifier.
   */
  lemma NormalizeKeepsLeadingDigit(s: string)
    requires s != [] && IsDigit(s[0])
    ensures Normalize(s)[0] == s[0]
    ensures !IsIdentifier(Normalize(s))
  {
    var a := ReplaceNonWord(s);
    var b := GuardDigit(a);
    assert b == "_" + a && b[1] == s[0];
    CollapseSecond(b);
    var c := CollapseUnderscores(b);
    assert TrimLeft(c, IsUnderscore) == TrimLeft(c[1..], IsUnderscore);
    assert TrimLeft(c[1..], IsUnderscore) == c[1..];
    var d := Stripped(s);
    assert d != [] && d[0] == s[0];
  }
}
