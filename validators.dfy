/**
 * The form validators of src/utils/validators.js: the e-mail shape test, the
 * progressive CNPJ (Brazilian company tax id) mask, the 14-digit CNPJ check and
 * the required-fields test.
 */
module Validators {
  import opened Wrappers
  import opened Text

  // ---------------------------------------------------------------------------
  // E-mail: /^[^\s@]+@[^\s@]+\.[^\s@]+$/ tested on the lower-cased input
  // ---------------------------------------------------------------------------

  /** Every character matches the regex class `[^\s@]`. */
  predicate NoSpaceNoAt(s: string)
  {
    forall i :: 0 <= i < |s| ==> !IsWhitespace(s[i]) && s[i] != '@'
  }

  /**
   * The regex, read term by term: a non-empty run of `[^\s@]`, an `@` at `at`,
   * a non-empty run, a `.` at `dot`, and a non-empty run up to the end.
   */
  predicate EmailRegex(s: string)
  {
    exists at, dot | 0 < at && at + 1 < dot && dot + 1 < |s| ::
      s[at] == '@' && s[dot] == '.'
      && NoSpaceNoAt(s[..at]) && NoSpaceNoAt(s[at + 1..dot]) && NoSpaceNoAt(s[dot + 1..])
  }

  /** `isValidEmail`: `String(email)` of null/undefined has no `@`, so it fails. */
  predicate IsValidEmail(email: Option<string>)
  {
    email.Some? && EmailRegex(Lower(email.value))
  }

  /**
   * The shape the regex accepts, stated without the regex: no whitespace,
   * exactly one `@`, a non-empty local part, and a domain holding a `.` that
   * is neither its first nor its last character.
   */
  predicate EmailShape(s: string)
  {
    && NoWhitespace(s)
    && exists at | 0 < at < |s| ::
         && s[at] == '@'
         && (forall j :: 0 <= j < |s| && j != at ==> s[j] != '@')
         && (exists dot | at + 1 < dot < |s| - 1 :: s[dot] == '.')
  }

  lemma EmailRegexIffShape(s: string)
    ensures EmailRegex(s) <==> EmailShape(s)
  {
    if EmailRegex(s) {
      EmailRegexGivesShape(s);
    }
    if EmailShape(s) {
      EmailShapeGivesRegex(s);
    }
  }

  lemma EmailRegexGivesShape(s: string)
    requires EmailRegex(s)
    ensures EmailShape(s)
  {
    var at, dot :| 0 < at && at + 1 < dot && dot + 1 < |s| &&
      s[at] == '@' && s[dot] == '.'
      && NoSpaceNoAt(s[..at]) && NoSpaceNoAt(s[at + 1..dot]) && NoSpaceNoAt(s[dot + 1..]);
    forall j | 0 <= j < |s| && j != at
      ensures !IsWhitespace(s[j]) && s[j] != '@'
    {
      if j < at {
        assert s[j] == s[..at][j];
      } else if j < dot {
        assert s[j] == s[at + 1..dot][j - at - 1];
      } else if j > dot {
        assert s[j] == s[dot + 1..][j - dot - 1];
      }
    }
    assert NoWhitespace(s);
  }

  lemma EmailShapeGivesRegex(s: string)
    requires EmailShape(s)
    ensures EmailRegex(s)
  {
    var at :| 0 < at < |s| && s[at] == '@'
      && (forall j :: 0 <= j < |s| && j != at ==> s[j] != '@')
      && (exists dot | at + 1 < dot < |s| - 1 :: s[dot] == '.');
    var dot :| at + 1 < dot < |s| - 1 && s[dot] == '.';
    assert NoSpaceNoAt(s[..at]);
    assert NoSpaceNoAt(s[at + 1..dot]);
    assert NoSpaceNoAt(s[dot + 1..]);
  }

  /** Two strings with whitespace, `@` and `.` at the same positions. */
  predicate SameEmailClasses(s: string, t: string)
  {
    && |s| == |t|
    && forall i :: 0 <= i < |s| ==>
         && (IsWhitespace(s[i]) <==> IsWhitespace(t[i]))
         && (s[i] == '@' <==> t[i] == '@')
         && (s[i] == '.' <==> t[i] == '.')
  }

  lemma EmailShapeTransfer(s: string, t: string)
    requires SameEmailClasses(s, t)
    requires EmailShape(s)
    ensures EmailShape(t)
  {
    var at :| 0 < at < |s| && s[at] == '@'
      && (forall j :: 0 <= j < |s| && j != at ==> s[j] != '@')
      && (exists dot | at + 1 < dot < |s| - 1 :: s[dot] == '.');
    var dot :| at + 1 < dot < |s| - 1 && s[dot] == '.';
    assert t[at] == '@' && t[dot] == '.';
  }

  /** Lower-casing keeps whitespace, `@` and `.` where they are. */
  lemma EmailShapeLower(s: string)
    ensures EmailShape(Lower(s)) <==> EmailShape(s)
  {
    var l := Lower(s);
    assert SameEmailClasses(s, l);
    if EmailShape(s) {
      EmailShapeTransfer(s, l);
    }
    if EmailShape(l) {
      EmailShapeTransfer(l, s);
    }
  }

  /** `isValidEmail(e)` holds iff `e` has the `local@domain.tld` shape; case plays no part. */
  lemma IsValidEmailIff(e: string)
    ensures IsValidEmail(Some(e)) <==> EmailShape(e)
    ensures IsValidEmail(Some(Lower(e))) <==> IsValidEmail(Some(e))
  {
    EmailRegexIffShape(Lower(e));
    EmailShapeLower(e);
    EmailRegexIffShape(Lower(Lower(e)));
    EmailShapeLower(Lower(e));
  }

  /** A valid e-mail contains no whitespace, so `trim` leaves it as it is. */
  lemma ValidEmailIsTrimmed(e: string)
    requires IsValidEmail(Some(e))
    ensures NoWhitespace(e) && Trim(e) == e
  {
    IsValidEmailIff(e);
    TrimNoWhitespace(e);
  }

  // ---------------------------------------------------------------------------
  // CNPJ mask and check
  // ---------------------------------------------------------------------------

  /** At most the first 14 digits of the value: `String(value || '').replace(/\D/g, '').slice(0, 14)`. */
  function CnpjDigits(value: Option<string>): (d: string)
    ensures AllDigits(d)
    ensures |d| == Min(14, |Digits(OrEmpty(value))|)
    ensures d == Digits(OrEmpty(value))[..|d|]
  {
    Slice(Digits(OrEmpty(value)), 0, 14)
  }

  /** `maskCnpj`: the digits regrouped as NN.NNN.NNN/NNNN-NN, each separator added once a digit follows it. */
  function MaskCnpj(value: Option<string>): string
  {
    FormatCnpj(CnpjDigits(value))
  }

  /** The grouping `maskCnpj` applies to its (at most 14) digits. */
  function FormatCnpj(digits: string): string
  {
    var n := |digits|;
    (if n > 0 then Slice(digits, 0, 2) else "")
    + Group('.', digits, 2, 5, n >= 3)
    + Group('.', digits, 5, 8, n >= 6)
    + Group('/', digits, 8, 12, n >= 9)
    + Group('-', digits, 12, 14, n >= 13)
  }

  /** One separated group of the mask: the separator and the group's digits, once the group has begun. */
  function Group(sep: char, d: string, start: nat, end: nat, present: bool): string
  {
    if present then [sep] + Slice(d, start, end) else ""
  }

  /** `isValidCnpj`: exactly 14 digits, whatever else the value holds. */
  predicate IsValidCnpj(value: Option<string>)
  {
    |Digits(OrEmpty(value))| == 14
  }

  /** The number of separators the mask holds for `n` digits. */
  function Separators(n: nat): nat
  {
    (if n >= 3 then 1 else 0) + (if n >= 6 then 1 else 0) + (if n >= 9 then 1 else 0) + (if n >= 13 then 1 else 0)
  }

  /** The positions of NN.NNN.NNN/NNNN-NN that hold a separator. */
  predicate IsSeparatorPosition(i: nat)
  {
    i == 2 || i == 6 || i == 10 || i == 15
  }

  function SeparatorAt(i: nat): char
  {
    if i == 10 then '/' else if i == 15 then '-' else '.'
  }

  /** How many separator positions come before position `i`. */
  function SeparatorsBefore(i: nat): nat
  {
    (if i > 2 then 1 else 0) + (if i > 6 then 1 else 0) + (if i > 10 then 1 else 0) + (if i > 15 then 1 else 0)
  }

  /**
   * The layout of NN.NNN.NNN/NNNN-NN filled with the digits `d`: `|d| + Separators(|d|)`
   * characters, `.`, `.`, `/` and `-` at positions 2, 6, 10 and 15, and at every other
   * position the next digit in order.
   */
  predicate MaskLayout(r: string, d: string)
  {
    && |r| == |d| + Separators(|d|)
    && (forall i :: 0 <= i < |r| && IsSeparatorPosition(i) ==> r[i] == SeparatorAt(i))
    && (forall i :: 0 <= i < |r| && !IsSeparatorPosition(i) ==>
          i - SeparatorsBefore(i) < |d| && r[i] == d[i - SeparatorsBefore(i)])
  }

  /**
   * The exact layout of the mask: the digits in order, with each separator present
   * exactly when a digit follows it.
   */
  lemma MaskCnpjLayout(value: Option<string>)
    ensures MaskLayout(MaskCnpj(value), CnpjDigits(value))
  {
    FormatCnpjLayout(CnpjDigits(value));
  }

  lemma FormatCnpjLayout(d: string)
    requires |d| <= 14
    ensures MaskLayout(FormatCnpj(d), d)
  {
    MaskedLayout(d, 4);
    var n := |d|;
    var m1 := if n > 0 then Slice(d, 0, 2) else "";
    assert Masked(d, 1) == m1 + Group('.', d, 2, 5, n >= 3);
    assert Masked(d, 2) == Masked(d, 1) + Group('.', d, 5, 8, n >= 6);
    assert Masked(d, 3) == Masked(d, 2) + Group('/', d, 8, 12, n >= 9);
    assert Masked(d, 4) == Masked(d, 3) + Group('-', d, 12, 14, n >= 13);
    LayoutUpToGivesMask(Masked(d, 4), d);
  }

  /** Where group `stage` (1 to 4) of the mask begins and ends among the digits; "group 0" is the first two. */
  function GroupEnd(stage: nat): nat
  {
    if stage == 0 then 2 else if stage == 1 then 5 else if stage == 2 then 8 else if stage == 3 then 12 else 14
  }

  function GroupSeparator(stage: nat): char
  {
    if stage == 3 then '/' else if stage == 4 then '-' else '.'
  }

  /** The mask as it stands after line `9 + stage` of the source has run. */
  function Masked(d: string, stage: nat): string
    requires stage <= 4
  {
    if stage == 0 then (if |d| > 0 then Slice(d, 0, 2) else "")
    else
      Masked(d, stage - 1)
      + Group(GroupSeparator(stage), d, GroupEnd(stage - 1), GroupEnd(stage), |d| > GroupEnd(stage - 1))
  }

  /** Every stage of the mask keeps the layout, over the digits it has consumed so far. */
  lemma {:induction false} MaskedLayout(d: string, stage: nat)
    requires stage <= 4 && |d| <= 14
    ensures LayoutUpTo(Masked(d, stage), d)
    ensures |Masked(d, stage)| == Min(|d|, GroupEnd(stage)) + Separators(Min(|d|, GroupEnd(stage)))
  {
    if stage == 0 {
      assert LayoutUpTo(Masked(d, 0), d);
    } else {
      MaskedLayout(d, stage - 1);
      MaskedStep(d, stage);
    }
  }

  /** One stage of the mask, given the stage before it. */
  lemma MaskedStep(d: string, stage: nat)
    requires 1 <= stage <= 4 && |d| <= 14
    requires LayoutUpTo(Masked(d, stage - 1), d)
    requires |Masked(d, stage - 1)| == Min(|d|, GroupEnd(stage - 1)) + Separators(Min(|d|, GroupEnd(stage - 1)))
    ensures LayoutUpTo(Masked(d, stage), d)
    ensures |Masked(d, stage)| == Min(|d|, GroupEnd(stage)) + Separators(Min(|d|, GroupEnd(stage)))
  {
    var start := GroupEnd(stage - 1);
    var prev := Masked(d, stage - 1);
    if |d| > start {
      var end := Min(GroupEnd(stage), |d|);
      LayoutStep(prev, GroupSeparator(stage), d, start, end);
      assert Masked(d, stage) == prev + ([GroupSeparator(stage)] + d[start..end]);
    } else {
      assert Masked(d, stage) == prev;
    }
  }

  lemma LayoutUpToGivesMask(r: string, d: string)
    requires LayoutUpTo(r, d) && |r| == |d| + Separators(|d|)
    ensures MaskLayout(r, d)
  {
  }

  /** Where a separated group of NN.NNN.NNN/NNNN-NN starts in the mask and which digits it holds. */
  predicate GroupSpot(at: nat, start: nat, end: nat)
  {
    && start < end
    && ((at == 2 && start == 2 && end <= 5) || (at == 6 && start == 5 && end <= 8)
        || (at == 10 && start == 8 && end <= 12) || (at == 15 && start == 12 && end <= 14))
  }

  /**
   * The layout condition on the positions a partly built mask already has: a
   * separator where one belongs, and otherwise the digit that belongs there.
   */
  predicate LayoutUpTo(r: string, d: string)
  {
    forall i :: 0 <= i < |r| ==>
      if IsSeparatorPosition(i) then r[i] == SeparatorAt(i)
      else i - SeparatorsBefore(i) < |d| && r[i] == d[i - SeparatorsBefore(i)]
  }

  /**
   * One `masked += sep + digits.slice(start, end)` step keeps the layout, when the
   * mask built so far ends where that group starts.
   */
  lemma LayoutStep(m: string, sep: char, d: string, start: nat, end: nat)
    requires LayoutUpTo(m, d)
    requires end <= |d| && GroupSpot(|m|, start, end) && SeparatorAt(|m|) == sep
    ensures LayoutUpTo(m + ([sep] + d[start..end]), d)
    ensures |m + ([sep] + d[start..end])| == end + Separators(end)
  {
    var g := [sep] + d[start..end];
    var r := m + g;
    forall i | 0 <= i < |r|
      ensures if IsSeparatorPosition(i) then r[i] == SeparatorAt(i)
              else i - SeparatorsBefore(i) < |d| && r[i] == d[i - SeparatorsBefore(i)]
    {
      if i < |m| {
        assert r[i] == m[i];
      } else if i > |m| {
        var k := i - |m|;
        assert r[i] == g[k];
        assert g[k] == d[start..end][k - 1];
      }
    }
  }

  /** With no digits at all (null, empty, or only other characters) the mask is empty. */
  lemma MaskCnpjEmpty(value: Option<string>)
    requires Digits(OrEmpty(value)) == []
    ensures MaskCnpj(value) == ""
  {
  }

  /** Fourteen or more digits give the full 18-character form NN.NNN.NNN/NNNN-NN. */
  lemma MaskCnpjFull(value: Option<string>)
    requires |Digits(OrEmpty(value))| >= 14
    ensures var d := Digits(OrEmpty(value));
      MaskCnpj(value) == d[..2] + "." + d[2..5] + "." + d[5..8] + "/" + d[8..12] + "-" + d[12..14]
    ensures |MaskCnpj(value)| == 18
  {
    var full := Digits(OrEmpty(value));
    var d := CnpjDigits(value);
    assert d == full[..14];
    assert Slice(d, 0, 2) == full[..2];
    assert Slice(d, 2, 5) == full[2..5];
    assert Slice(d, 5, 8) == full[5..8];
    assert Slice(d, 8, 12) == full[8..12];
    assert Slice(d, 12, 14) == full[12..14];
  }

  /** Removing the separators from the mask gives back the first min(14, #digits) digits, in order. */
  lemma MaskCnpjKeepsDigits(value: Option<string>)
    ensures Digits(MaskCnpj(value)) == CnpjDigits(value)
    ensures Digits(MaskCnpj(value)) == Digits(OrEmpty(value))[..Min(14, |Digits(OrEmpty(value))|)]
  {
    DigitsOfFormat(CnpjDigits(value));
  }

  lemma DigitsOfFormat(d: string)
    requires AllDigits(d) && |d| <= 14
    ensures Digits(FormatCnpj(d)) == d
  {
    var n := |d|;
    var a := if n > 0 then Slice(d, 0, 2) else "";
    var b := Group('.', d, 2, 5, n >= 3);
    var c := Group('.', d, 5, 8, n >= 6);
    var e := Group('/', d, 8, 12, n >= 9);
    var f := Group('-', d, 12, 14, n >= 13);
    DigitsConcat(a, b);
    DigitsConcat(a + b, c);
    DigitsConcat(a + b + c, e);
    DigitsConcat(a + b + c + e, f);
    DigitsOfDigits(a);
    DigitsOfGroup('.', d, 2, 5, n >= 3);
    DigitsOfGroup('.', d, 5, 8, n >= 6);
    DigitsOfGroup('/', d, 8, 12, n >= 9);
    DigitsOfGroup('-', d, 12, 14, n >= 13);
    GroupsCover(d);
  }

  /** The digits of a group are the group's slice of `d`. */
  lemma DigitsOfGroup(sep: char, d: string, start: nat, end: nat, present: bool)
    requires AllDigits(d) && !IsDigit(sep)
    ensures Digits(Group(sep, d, start, end, present)) == if present then Slice(d, start, end) else ""
  {
    if present {
      DigitsConcat([sep], Slice(d, start, end));
      DigitsOfDigits(Slice(d, start, end));
    }
  }

  /** The groups' slices, read in order, give back all of `d`. */
  lemma GroupsCover(d: string)
    requires |d| <= 14
    ensures var n := |d|;
      (if n > 0 then Slice(d, 0, 2) else "")
      + (if n >= 3 then Slice(d, 2, 5) else "")
      + (if n >= 6 then Slice(d, 5, 8) else "")
      + (if n >= 9 then Slice(d, 8, 12) else "")
      + (if n >= 13 then Slice(d, 12, 14) else "")
      == d
  {
    var n := |d|;
    if n < 3 {
      assert Slice(d, 0, 2) == d;
    } else if n < 6 {
      assert d == d[..2] + d[2..n];
    } else if n < 9 {
      assert d == d[..2] + d[2..5] + d[5..n];
    } else if n < 13 {
      assert d == d[..2] + d[2..5] + d[5..8] + d[8..n];
    } else {
      assert d == d[..2] + d[2..5] + d[5..8] + d[8..12] + d[12..n];
    }
  }

  /** Masking an already masked value changes nothing. */
  lemma MaskCnpjIdempotent(value: Option<string>)
    ensures MaskCnpj(Some(MaskCnpj(value))) == MaskCnpj(value)
  {
    MaskCnpjKeepsDigits(value);
    var d := CnpjDigits(value);
    assert CnpjDigits(Some(MaskCnpj(value))) == d;
  }

  /**
   * The mask is stable while the user types: when the digits typed so far are a
   * prefix of the digits typed later, the earlier mask is a prefix of the later one.
   */
  lemma MaskCnpjProgressive(before: Option<string>, after: Option<string>)
    requires Digits(OrEmpty(before)) <= Digits(OrEmpty(after))
    ensures MaskCnpj(before) <= MaskCnpj(after)
  {
    var d, d' := CnpjDigits(before), CnpjDigits(after);
    assert |d| <= |d'|;
    assert d <= d';
    FormatCnpjMonotone(d, d');
  }

  lemma FormatCnpjMonotone(d: string, d': string)
    requires |d'| <= 14 && d <= d'
    ensures FormatCnpj(d) <= FormatCnpj(d')
  {
    FormatCnpjLayout(d);
    FormatCnpjLayout(d');
    var r, r' := FormatCnpj(d), FormatCnpj(d');
    assert Separators(|d|) <= Separators(|d'|);
    forall i | 0 <= i < |r|
      ensures r[i] == r'[i]
    {
      if !IsSeparatorPosition(i) {
        assert d[i - SeparatorsBefore(i)] == d'[i - SeparatorsBefore(i)];
      }
    }
  }

  /** `isValidCnpj` of a masked value holds iff the value had at least 14 digits. */
  lemma IsValidCnpjOfMask(value: Option<string>)
    ensures IsValidCnpj(Some(MaskCnpj(value))) <==> |Digits(OrEmpty(value))| >= 14
  {
    MaskCnpjKeepsDigits(value);
  }

  // ---------------------------------------------------------------------------
  // Required fields: fields.every((f) => String(f || '').trim().length > 0)
  // ---------------------------------------------------------------------------

  predicate RequiredFieldsFilled(fields: seq<Option<string>>)
  {
    fields == [] || (Trim(OrEmpty(fields[0])) != "" && RequiredFieldsFilled(fields[1..]))
  }

  /** A field counts as filled when it holds some character other than whitespace. */
  predicate Filled(field: Option<string>)
  {
    exists j :: 0 <= j < |OrEmpty(field)| && !IsWhitespace(OrEmpty(field)[j])
  }

  /** The required-fields test holds iff every field is filled, vacuously for no fields. */
  lemma {:induction false} RequiredFieldsFilledIff(fields: seq<Option<string>>)
    ensures RequiredFieldsFilled(fields) <==> forall i :: 0 <= i < |fields| ==> Filled(fields[i])
  {
    if fields != [] {
      var tail := fields[1..];
      FilledIff(fields[0]);
      RequiredFieldsFilledIff(tail);
      if forall i :: 0 <= i < |fields| ==> Filled(fields[i]) {
        forall i | 0 <= i < |tail| ensures Filled(tail[i]) {
          assert tail[i] == fields[i + 1];
        }
      }
      if RequiredFieldsFilled(fields) {
        forall i | 0 <= i < |fields| ensures Filled(fields[i]) {
          if i > 0 {
            assert fields[i] == tail[i - 1];
          }
        }
      }
    }
  }

  /** One field passes the test iff it is filled. */
  lemma FilledIff(field: Option<string>)
    ensures Trim(OrEmpty(field)) != "" <==> Filled(field)
  {
    TrimEmptyIff(OrEmpty(field));
  }
}
