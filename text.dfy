/**
 * The JavaScript string builtins the validators, factories and controllers rely on:
 * `String(v || '')`, `trim`, the regex class `\s`, `toLowerCase`/`toUpperCase`,
 * the regex class `\D` and `slice`.
 */
module Text {
  import opened Wrappers

  /** `String(v || '')` for a text field that may be null or undefined. */
  function OrEmpty(v: Option<string>): string
  {
    if v.Some? then v.value else ""
  }

  /**
   * ECMAScript WhiteSpace and LineTerminator code points: the set that both
   * `String.prototype.trim` and the regex class `\s` use.
   */
  predicate IsWhitespace(c: char)
  {
    c == '\t' || c == '\n' || c == '\U{000B}' || c == '\U{000C}' || c == '\r' || c == ' '
    || c == '\U{00A0}' || c == '\U{1680}' || ('\U{2000}' <= c <= '\U{200A}')
    || c == '\U{2028}' || c == '\U{2029}' || c == '\U{202F}' || c == '\U{205F}'
    || c == '\U{3000}' || c == '\U{FEFF}'
  }

  predicate NoWhitespace(s: string)
  {
    forall i :: 0 <= i < |s| ==> !IsWhitespace(s[i])
  }

  /** Leading whitespace removed. */
  function TrimStart(s: string): (r: string)
    ensures |r| <= |s| && r == s[|s| - |r|..]
    ensures forall i :: 0 <= i < |s| - |r| ==> IsWhitespace(s[i])
    ensures r != [] ==> !IsWhitespace(r[0])
  {
    if s != [] && IsWhitespace(s[0]) then TrimStart(s[1..]) else s
  }

  /** Trailing whitespace removed. */
  function TrimEnd(s: string): (r: string)
    ensures |r| <= |s| && r == s[..|r|]
    ensures forall i :: |r| <= i < |s| ==> IsWhitespace(s[i])
    ensures r != [] ==> !IsWhitespace(r[|r| - 1])
  {
    if s != [] && IsWhitespace(s[|s| - 1]) then TrimEnd(s[..|s| - 1]) else s
  }

  /** `String.prototype.trim`. */
  function Trim(s: string): string
  {
    TrimEnd(TrimStart(s))
  }

  /** A string `trim` leaves as it is: no whitespace at either end. */
  predicate Trimmed(s: string)
  {
    s == [] || (!IsWhitespace(s[0]) && !IsWhitespace(s[|s| - 1]))
  }

  /** Trimming yields the empty string exactly when every character is whitespace. */
  lemma TrimEmptyIff(s: string)
    ensures Trim(s) == [] <==> forall i :: 0 <= i < |s| ==> IsWhitespace(s[i])
  {
    var t := TrimStart(s);
    if Trim(s) == [] {
      // every character of t is trailing whitespace, yet t cannot start with one
      assert t == [];
    } else {
      assert t != [];
      assert !IsWhitespace(s[|s| - |t|]);
    }
  }

  /** `trim` leaves no whitespace at either end, and keeps a trimmed string as it is. */
  lemma TrimTrims(s: string)
    ensures Trimmed(Trim(s))
    ensures Trimmed(s) ==> Trim(s) == s
  {
    var t := TrimStart(s);
    var r := TrimEnd(t);
    if r != [] {
      assert r[0] == t[0];
    }
    if Trimmed(s) && s != [] {
      assert TrimStart(s) == s;
      assert TrimEnd(s) == s;
    }
  }

  /** A string without any whitespace is its own trim. */
  lemma TrimNoWhitespace(s: string)
    requires NoWhitespace(s)
    ensures Trim(s) == s
  {
    TrimTrims(s);
  }

  function LowerChar(c: char): char
  {
    if 'A' <= c <= 'Z' then (c as int + 32) as char else c
  }

  function UpperChar(c: char): char
  {
    if 'a' <= c <= 'z' then (c as int - 32) as char else c
  }

  /** `toLowerCase`, restricted to the ASCII letters. */
  function Lower(s: string): (r: string)
    ensures |r| == |s|
    ensures forall i :: 0 <= i < |s| ==> r[i] == LowerChar(s[i])
  {
    seq(|s|, i requires 0 <= i < |s| => LowerChar(s[i]))
  }

  /** `toUpperCase`, restricted to the ASCII letters. */
  function Upper(s: string): (r: string)
    ensures |r| == |s|
    ensures forall i :: 0 <= i < |s| ==> r[i] == UpperChar(s[i])
  {
    seq(|s|, i requires 0 <= i < |s| => UpperChar(s[i]))
  }

  predicate HasNoLowerAscii(s: string)
  {
    forall i :: 0 <= i < |s| ==> !('a' <= s[i] <= 'z')
  }

  predicate HasNoUpperAscii(s: string)
  {
    forall i :: 0 <= i < |s| ==> !('A' <= s[i] <= 'Z')
  }

  /** ASCII case mapping never touches whitespace, so it keeps a trimmed string trimmed. */
  lemma CaseKeepsTrimmed(s: string)
    requires Trimmed(s)
    ensures Trimmed(Lower(s)) && Trimmed(Upper(s))
  {
  }

  /** Lower-casing leaves no upper-case letter and leaves a string without one as it is. */
  lemma LowerNormalizes(s: string)
    ensures HasNoUpperAscii(Lower(s))
    ensures HasNoUpperAscii(s) ==> Lower(s) == s
  {
  }

  /** Upper-casing leaves no lower-case letter and leaves a string without one as it is. */
  lemma UpperNormalizes(s: string)
    ensures HasNoLowerAscii(Upper(s))
    ensures HasNoLowerAscii(s) ==> Upper(s) == s
  {
  }

  /** The regex class `\d` without the `u` flag: an ASCII digit. */
  predicate IsDigit(c: char)
  {
    '0' <= c <= '9'
  }

  predicate AllDigits(s: string)
  {
    forall i :: 0 <= i < |s| ==> IsDigit(s[i])
  }

  /** `s.replace(/\D/g, '')`: the ASCII digits of `s`, in order. */
  function Digits(s: string): (r: string)
    ensures |r| <= |s|
    ensures AllDigits(r)
  {
    if s == [] then [] else (if IsDigit(s[0]) then [s[0]] else []) + Digits(s[1..])
  }

  lemma {:induction false} DigitsConcat(a: string, b: string)
    ensures Digits(a + b) == Digits(a) + Digits(b)
  {
    if a == [] {
      assert a + b == b;
    } else {
      assert (a + b)[1..] == a[1..] + b;
      DigitsConcat(a[1..], b);
    }
  }

  lemma {:induction false} DigitsOfDigits(s: string)
    requires AllDigits(s)
    ensures Digits(s) == s
  {
    if s != [] {
      DigitsOfDigits(s[1..]);
    }
  }

  lemma {:induction false} DigitsOfNonDigits(s: string)
    requires forall i :: 0 <= i < |s| ==> !IsDigit(s[i])
    ensures Digits(s) == []
  {
    if s != [] {
      DigitsOfNonDigits(s[1..]);
    }
  }

  function Min(a: int, b: int): int
  {
    if a <= b then a else b
  }

  /** `s.slice(start, end)` for non-negative bounds: both are clamped to the length. */
  function Slice(s: string, start: nat, end: nat): (r: string)
    ensures |r| == if Min(end, |s|) <= start then 0 else Min(end, |s|) - start
    ensures forall i :: 0 <= i < |r| ==> r[i] == s[start + i]
  {
    var e := Min(end, |s|);
    if e <= start then "" else s[start..e]
  }
}
