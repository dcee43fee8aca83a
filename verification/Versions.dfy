/** Configuration versions as text: the entity tag of a reply and the If-Match header of a write
    (section 13.1.1 of RFC 9110). */
module Versions {
  import opened Wrappers

  const MIN_INT64: int := -0x8000_0000_0000_0000
  const MAX_INT64: int := 0x7fff_ffff_ffff_ffff

  predicate IsDigit(c: char) {
    '0' <= c <= '9'
  }

  predicate AllDigits(s: string) {
    forall i :: 0 <= i < |s| ==> IsDigit(s[i])
  }

  function Digit(d: int): char
    requires 0 <= d < 10
  {
    ('0' as int + d) as char
  }

  function FormatNat(n: nat): (s: string)
    ensures s != "" && AllDigits(s)
  {
    if n < 10 then [Digit(n)] else FormatNat(n / 10) + [Digit(n % 10)]
  }

  function FormatInt(v: int): string {
    if v < 0 then "-" + FormatNat(-v) else FormatNat(v)
  }

  function DigitsValue(s: string): (v: int)
    requires AllDigits(s)
    ensures v >= 0
  {
    if s == "" then 0
    else
      assert IsDigit(s[|s| - 1]);
      10 * DigitsValue(s[..|s| - 1]) + (s[|s| - 1] as int - '0' as int)
  }

  /** Decimal, with an optional sign, in the range of a 64-bit integer. */
  function ParseInt(s: string): Option<int> {
    var negative := s != "" && s[0] == '-';
    var digits := if s != "" && (s[0] == '-' || s[0] == '+') then s[1..] else s;
    if digits == "" || !AllDigits(digits) then None
    else
      var v := if negative then -DigitsValue(digits) else DigitsValue(digits);
      if MIN_INT64 <= v <= MAX_INT64 then Some(v) else None
  }

  predicate IsSpace(c: char) {
    var n := c as int;
    || 0x9 <= n <= 0xd || n == 0x20 || n == 0x85 || n == 0xa0 || n == 0x1680
    || 0x2000 <= n <= 0x200a || n == 0x2028 || n == 0x2029 || n == 0x202f || n == 0x205f || n == 0x3000
  }

  function Trim(s: string, cut: char -> bool): string {
    if s == "" then s
    else if cut(s[0]) then Trim(s[1..], cut)
    else if cut(s[|s| - 1]) then Trim(s[..|s| - 1], cut)
    else s
  }

  function ETag(version: int): string {
    "\"" + FormatInt(version) + "\""
  }

  /** The text between the quotes of an If-Match header. */
  function Quoted(header: string): string {
    Trim(Trim(header, c => IsSpace(c)), c => c == '"')
  }

  datatype Refusal = Missing | NotAVersion | Conflict(expected: int, got: int)

  function RequireVersion(ifMatch: string, version: int): Option<Refusal> {
    var value := Quoted(ifMatch);
    if value == "" then Some(Missing)
    else match ParseInt(value)
      case None => Some(NotAVersion)
      case Some(want) => if want != version then Some(Conflict(version, want)) else None
  }

  lemma {:induction false} FormatThenValue(n: nat)
    ensures DigitsValue(FormatNat(n)) == n
  {
    if n < 10 {
    } else {
      FormatThenValue(n / 10);
      var s := FormatNat(n);
      assert s[..|s| - 1] == FormatNat(n / 10);
    }
  }

  /** Parsing undoes formatting, and refuses what 64 bits do not hold. */
  lemma ParseFormatted(v: int)
    ensures ParseInt(FormatInt(v)) ==
            if -0x8000_0000_0000_0000 <= v <= 0x7fff_ffff_ffff_ffff then Some(v) else None
  {
    var digits := FormatNat(if v < 0 then -v else v);
    FormatThenValue(if v < 0 then -v else v);
    if v < 0 {
      assert FormatInt(v)[1..] == digits;
    } else {
      assert IsDigit(digits[0]);
    }
  }

  lemma FormattedEnds(v: int)
    ensures FormatInt(v) != ""
    ensures FormatInt(v)[0] == '-' || IsDigit(FormatInt(v)[0])
    ensures IsDigit(FormatInt(v)[|FormatInt(v)| - 1])
  {
  }

  /** Trimming keeps only characters that were there. */
  lemma {:induction false} TrimSelects(s: string, cut: char -> bool)
    ensures forall c :: c in Trim(s, cut) ==> c in s
  {
    if s == "" {
    } else if cut(s[0]) {
      TrimSelects(s[1..], cut);
    } else if cut(s[|s| - 1]) {
      TrimSelects(s[..|s| - 1], cut);
    }
  }

  lemma TrimNothing(s: string, cut: char -> bool)
    requires s != "" && !cut(s[0]) && !cut(s[|s| - 1])
    ensures Trim(s, cut) == s
  {
  }

  lemma TrimBothEnds(s: string, c: char, cut: char -> bool)
    requires s != "" && cut(c) && !cut(s[0]) && !cut(s[|s| - 1])
    ensures Trim([c] + s + [c], cut) == s
  {
    assert ([c] + s + [c])[1..] == s + [c];
    assert (s + [c])[..|s|] == s;
    TrimNothing(s, cut);
  }

  lemma QuotedTag(v: int)
    requires MIN_INT64 <= v <= MAX_INT64
    ensures Quoted(ETag(v)) == FormatInt(v)
  {
    var text := FormatInt(v);
    FormattedEnds(v);
    TrimNothing(ETag(v), c => IsSpace(c));
    TrimBothEnds(text, '"', c => c == '"');
    assert ETag(v) == ['"'] + text + ['"'];
  }

  /** An entity tag sent back as If-Match is accepted exactly by the version it was made from. */
  lemma TagAcceptedIff(v: int, version: int)
    requires MIN_INT64 <= v <= MAX_INT64
    ensures RequireVersion(ETag(v), version).None? <==> v == version
  {
    QuotedTag(v);
    FormattedEnds(v);
    ParseFormatted(v);
  }

  /** Whatever its form, a header is accepted by one version at most. */
  lemma HeaderNamesOneVersion(header: string, v: int, w: int)
    requires RequireVersion(header, v).None? && RequireVersion(header, w).None?
    ensures v == w
  {
  }

  lemma ParsedDigit(value: string) returns (c: char)
    requires ParseInt(value).Some?
    ensures c in value && '0' <= c <= '9'
  {
    var digits := if value[0] == '-' || value[0] == '+' then value[1..] else value;
    c := digits[0];
    assert IsDigit(digits[0]);
  }

  /** A header without a digit is refused at every version: a missing one, a blank one, mere quotes, `*`. */
  lemma NoDigitRefused(header: string, version: int)
    requires forall i :: 0 <= i < |header| ==> !('0' <= header[i] <= '9')
    ensures RequireVersion(header, version).Some?
    ensures header == "" ==> RequireVersion(header, version) == Some(Missing)
  {
    var spaceless := Trim(header, c => IsSpace(c));
    var value := Quoted(header);
    TrimSelects(header, c => IsSpace(c));
    TrimSelects(spaceless, c => c == '"');
    assert forall i :: 0 <= i < |value| ==> value[i] in header;
    if ParseInt(value).Some? {
      var c := ParsedDigit(value);
      assert false;
    }
  }

  /** White space around a tag does not matter, tabs and no-break spaces included. */
  lemma SpacedTag(v: int, version: int, c: char)
    requires MIN_INT64 <= v <= MAX_INT64
    requires c in {' ', '\t', '\n', '\r', 0xb as char, 0xc as char, 0x85 as char, 0xa0 as char}
    ensures RequireVersion([c] + ETag(v) + [c], version).None? <==> v == version
  {
    TrimBothEnds(ETag(v), c, d => IsSpace(d));
    TrimNothing(ETag(v), d => IsSpace(d));
    TagAcceptedIff(v, version);
  }

  /** The tag of another version is refused as a conflict that names both. */
  lemma OtherTagConflicts(v: int, version: int)
    requires MIN_INT64 <= v <= MAX_INT64 && v != version
    ensures RequireVersion(ETag(v), version) == Some(Conflict(version, v))
  {
    QuotedTag(v);
    FormattedEnds(v);
    ParseFormatted(v);
  }

  /** Tags are quoted decimal numbers, and headers may have them with spaces around, or without quotes. */
  lemma TagExamples()
    ensures ETag(0) == "\"0\"" && ETag(42) == "\"42\"" && ETag(-7) == "\"-7\""
    ensures RequireVersion("42", 42).None? && RequireVersion("+42", 42).None?
    ensures RequireVersion(" \"42\" ", 42).None?
  {
    assert FormatNat(42) == FormatNat(4) + ['2'];
    FormatThenValue(42);
    TrimNothing("42", c => IsSpace(c));
    TrimNothing("42", c => c == '"');
    assert " \"42\" " == [' '] + "\"42\"" + [' '];
    TrimBothEnds("\"42\"", ' ', c => IsSpace(c));
    assert "\"42\"" == ['"'] + "42" + ['"'];
    TrimBothEnds("42", '"', c => c == '"');
    assert FormatNat(42) == "42";
    TrimNothing("+42", c => IsSpace(c));
    TrimNothing("+42", c => c == '"');
    assert "+42"[1..] == "42";
  }
}
