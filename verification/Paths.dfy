/** Joining the path of an upstream with the path of a request, plain and percent-encoded. */
module Paths {
  import opened Wrappers

  predicate Starts(s: string) {
    s != "" && s[0] == '/'
  }

  predicate Ends(s: string) {
    s != "" && s[|s| - 1] == '/'
  }

  function Join(base: string, path: string): string {
    if base == "" then path
    else if path == "" then base
    else if Ends(base) && Starts(path) then base + path[1..]
    else if !Ends(base) && !Starts(path) then base + "/" + path
    else base + path
  }

  // ---------- The algebra of joining ----------

  /** Two slashes that meet become one, none becomes one, and one stays. */
  lemma JoinCases(a: string, b: string)
    ensures a != "" ==> Join(a + "/", "/" + b) == a + "/" + b
    ensures a != "" && b != "" && a[|a| - 1] != '/' && b[0] != '/' ==> Join(a, b) == a + "/" + b
    ensures b != "" && b[0] != '/' ==> Join(a + "/", b) == a + "/" + b
    ensures a != "" && a[|a| - 1] != '/' ==> Join(a, "/" + b) == a + "/" + b
  {
    assert (a + "/") + b == a + ("/" + b);
    assert ("/" + b)[1..] == b;
  }

  function TrimStart(s: string): string {
    if Starts(s) then s[1..] else s
  }

  function TrimEnd(s: string): string {
    if Ends(s) then s[..|s| - 1] else s
  }

  /** Exactly one slash at the boundary, and nothing else changed. */
  lemma OneSlashBetween(a: string, b: string)
    requires a != "" && b != ""
    ensures Join(a, b) == TrimEnd(a) + "/" + TrimStart(b)
  {
  }

  lemma TrimsCommute(b: string)
    requires |b| > 1
    ensures TrimEnd(TrimStart(b)) == TrimStart(TrimEnd(b))
  {
  }

  lemma TrimEndOf(x: string, b: string)
    requires b != ""
    ensures TrimEnd(x + b) == x + TrimEnd(b)
  {
  }

  lemma TrimStartOf(b: string, z: string)
    requires b != ""
    ensures TrimStart(b + z) == TrimStart(b) + z
  {
    assert (b + z)[1..] == b[1..] + z;
  }

  lemma TrimMiddle(x: string, b: string, z: string)
    requires |b| > 1
    ensures TrimEnd(x + "/" + TrimStart(b)) + "/" + z == x + "/" + TrimStart(TrimEnd(b) + "/" + z)
  {
    TrimsCommute(b);
    var y := TrimEnd(TrimStart(b));
    assert TrimEnd(x + "/" + TrimStart(b)) == x + "/" + y by { TrimEndOf(x + "/", TrimStart(b)); }
    assert TrimStart(TrimEnd(b) + "/" + z) == y + "/" + z by { TrimStartOf(TrimEnd(b), "/" + z); }
    hide TrimStart, TrimEnd;
    assert (x + "/" + y) + "/" + z == x + "/" + (y + "/" + z);
  }

  lemma TrimSingle(x: string, b: string, z: string)
    requires |b| == 1
    ensures TrimEnd(x + "/" + TrimStart(b)) + "/" + z == x + "/" + TrimStart(TrimEnd(b) + "/" + z)
  {
    if b == "/" {
      assert x + "/" + "" == x + "/";
      assert TrimEnd(x + "/") == x;
      assert TrimEnd(b) + "/" + z == "/" + z;
      assert TrimStart("/" + z) == z;
    } else {
      assert TrimEnd(x + "/" + b) == x + "/" + b;
      assert TrimStart(b + "/" + z) == b + "/" + z;
      assert (x + "/" + b) + "/" + z == x + "/" + (b + "/" + z);
    }
  }

  /** The join is associative, with the empty path as its unit on both sides. */
  lemma JoinIsMonoid(a: string, b: string, c: string)
    ensures Join(Join(a, b), c) == Join(a, Join(b, c))
    ensures Join("", a) == a == Join(a, "")
  {
    if a != "" && b != "" && c != "" {
      OneSlashBetween(a, b);
      OneSlashBetween(b, c);
      OneSlashBetween(Join(a, b), c);
      OneSlashBetween(a, Join(b, c));
      if |b| == 1 {
        TrimSingle(TrimEnd(a), b, TrimStart(c));
      } else {
        TrimMiddle(TrimEnd(a), b, TrimStart(c));
      }
    }
  }

  lemma Associate(x: string, y: string, z: string)
    ensures (x + y) + z == x + (y + z)
  {
  }

  // ---------- Percent-encoding (section 2.1 of RFC 3986); a char stands for a byte ----------

  predicate Hex(c: char) {
    '0' <= c <= '9' || 'a' <= c <= 'f' || 'A' <= c <= 'F'
  }

  function HexValue(c: char): (v: int)
    requires Hex(c)
    ensures 0 <= v < 16
  {
    if '0' <= c <= '9' then c as int - '0' as int
    else if 'a' <= c <= 'f' then c as int - 'a' as int + 10
    else c as int - 'A' as int + 10
  }

  predicate Escape(s: string) {
    |s| == 3 && s[0] == '%' && Hex(s[1]) && Hex(s[2])
  }

  function EscapedByte(s: string): char
    requires Escape(s)
  {
    (16 * HexValue(s[1]) + HexValue(s[2])) as char
  }

  predicate EscapedSlash(s: string) {
    s == "%2F" || s == "%2f"
  }

  lemma SlashEscapes(s: string)
    requires Escape(s)
    ensures EscapedByte(s) == '/' <==> EscapedSlash(s)
  {
  }

  /** Replacing every escape by its byte; malformed escapes are an error. */
  function Decode(s: string): Option<string> {
    if s == "" then Some("")
    else if s[0] == '%' then
      if |s| < 3 || !Escape(s[..3]) then None
      else match Decode(s[3..])
        case None => None
        case Some(rest) => Some([EscapedByte(s[..3])] + rest)
    else match Decode(s[1..])
      case None => None
      case Some(rest) => Some([s[0]] + rest)
  }

  predicate WellFormed(s: string) {
    Decode(s).Some?
  }

  predicate HexDigit(c: char) {
    c in "0123456789abcdefABCDEF"
  }

  /** An escape is a percent sign and two hexadecimal digits, in either case. */
  predicate EscapeAt(s: string, i: int)
    requires 0 <= i < |s|
  {
    i + 2 < |s| && HexDigit(s[i + 1]) && HexDigit(s[i + 2])
  }

  lemma HexDigits(c: char)
    ensures Hex(c) <==> HexDigit(c)
  {
    var digits := "0123456789abcdefABCDEF";
    if Hex(c) {
      var k := if c <= '9' then c as int - '0' as int else if c <= 'F' then c as int - 'A' as int + 16
               else c as int - 'a' as int + 10;
      assert digits[k] == c;
    }
  }

  lemma EscapesOfRest(s: string, k: nat)
    requires s != "" && k <= |s| && k == (if s[0] == '%' then 3 else 1)
    ensures (forall i :: 0 <= i < |s| && s[i] == '%' ==> EscapeAt(s, i)) <==>
            && (s[0] == '%' ==> EscapeAt(s, 0))
            && forall i :: 0 <= i < |s| - k && s[k..][i] == '%' ==> EscapeAt(s[k..], i)
  {
    assert !HexDigit('%');
    hide HexDigit;
    var rest := s[k..];
    assert forall i :: 0 <= i < |rest| ==> rest[i] == s[i + k];
    forall i | 0 <= i < |rest| ensures EscapeAt(rest, i) <==> EscapeAt(s, i + k) {
    }
    if forall i :: 0 <= i < |s| && s[i] == '%' ==> EscapeAt(s, i) {
      forall i | 0 <= i < |rest| && rest[i] == '%' ensures EscapeAt(rest, i) {
        assert EscapeAt(s, i + k);
      }
    }
    if (s[0] == '%' ==> EscapeAt(s, 0)) && forall i :: 0 <= i < |rest| && rest[i] == '%' ==> EscapeAt(rest, i) {
      forall i | 0 <= i < |s| && s[i] == '%' ensures EscapeAt(s, i) {
        if i >= k { assert rest[i - k] == '%'; }
      }
    }
  }

  /** Exactly the strings in which every percent sign begins an escape can be decoded. */
  lemma {:induction false} WellFormedIff(s: string)
    ensures WellFormed(s) <==> forall i :: 0 <= i < |s| && s[i] == '%' ==> EscapeAt(s, i)
  {
    if s == "" {
    } else {
      hide HexDigit;
      var k := if s[0] == '%' then 3 else 1;
      if k <= |s| {
        WellFormedIff(s[k..]);
        if k == 3 {
          HexDigits(s[1]);
          HexDigits(s[2]);
        }
        EscapesOfRest(s, k);
      }
    }
  }

  predicate Alphabet(digits: string) {
    digits == "0123456789ABCDEF" || digits == "0123456789abcdef"
  }

  function EscapeOf(c: char, digits: string): string
    requires Alphabet(digits)
  {
    ['%', digits[c as int % 256 / 16], digits[c as int % 16]]
  }

  /** Every byte escaped, with digits of the given alphabet. */
  function Escaped(s: string, digits: string): string
    requires Alphabet(digits)
  {
    if s == "" then "" else EscapeOf(s[0], digits) + Escaped(s[1..], digits)
  }

  lemma DigitValues(digits: string, n: int)
    requires Alphabet(digits)
    requires 0 <= n < 16
    ensures Hex(digits[n]) && HexValue(digits[n]) == n
  {
  }

  lemma EscapeOfByte(c: char, digits: string)
    requires Alphabet(digits)
    requires c as int < 256
    ensures Escape(EscapeOf(c, digits)) && EscapedByte(EscapeOf(c, digits)) == c
  {
    hide Hex, HexValue;
    var high, low := c as int / 16, c as int % 16;
    assert |digits| == 16;
    DigitValues(digits, high);
    DigitValues(digits, low);
    hide Alphabet;
    assert c as int % 256 == c as int;
    assert EscapeOf(c, digits) == ['%', digits[high], digits[low]];
    assert (16 * high + low) as char == c;
  }

  lemma DecodeEscape(e: string, rest: string)
    requires Escape(e) && WellFormed(rest)
    ensures Decode(e + rest) == Some([EscapedByte(e)] + Decode(rest).value)
  {
    assert (e + rest)[..3] == e && (e + rest)[3..] == rest;
  }

  /** Decoding undoes the escaping of bytes, with upper or lower case digits. */
  lemma {:induction false} EscapedDecodes(s: string, digits: string)
    requires Alphabet(digits)
    requires forall i :: 0 <= i < |s| ==> s[i] as int < 256
    ensures Decode(Escaped(s, digits)) == Some(s)
  {
    if s == "" {
    } else {
      hide Escape, EscapedByte, EscapeOf, Decode;
      EscapedDecodes(s[1..], digits);
      EscapeOfByte(s[0], digits);
      DecodeEscape(EscapeOf(s[0], digits), Escaped(s[1..], digits));
      assert [s[0]] + s[1..] == s;
    }
  }

  lemma DecodeSingle(s: string)
    requires |s| == 1 && s != "%"
    ensures Decode(s) == Some(s)
  {
    assert s[1..] == "" && [s[0]] + "" == s;
  }

  /** The first character or escape of a path, decoded, and where the rest begins. */
  function FirstLength(s: string): nat {
    if s != "" && s[0] == '%' then 3 else 1
  }

  lemma DecodeFirst(s: string)
    requires WellFormed(s) && s != ""
    ensures FirstLength(s) <= |s| && WellFormed(s[FirstLength(s)..])
    ensures FirstLength(s) == 3 ==> Escape(s[..3])
    ensures Decode(s).value ==
            [if FirstLength(s) == 3 then EscapedByte(s[..3]) else s[0]] + Decode(s[FirstLength(s)..]).value
  {
  }

  lemma DecodePrepend(s: string, k: nat)
    requires s != "" && k == FirstLength(s) <= |s| && WellFormed(s[k..])
    requires k == 3 ==> Escape(s[..3])
    ensures WellFormed(s)
  {
  }

  lemma {:induction false} DecodeConcat(a: string, b: string)
    requires WellFormed(a) && WellFormed(b)
    ensures Decode(a + b) == Some(Decode(a).value + Decode(b).value)
  {
    if a == "" {
      assert a + b == b && "" + Decode(b).value == Decode(b).value;
    } else {
      hide Decode;
      var k := FirstLength(a);
      DecodeFirst(a);
      DecodeConcat(a[k..], b);
      assert (a + b)[k..] == a[k..] + b && (a + b)[..k] == a[..k] && (a + b)[0] == a[0];
      DecodePrepend(a + b, k);
      DecodeFirst(a + b);
      Associate(Decode(a).value[..1], Decode(a[k..]).value, Decode(b).value);
    }
  }

  predicate StartsEscaped(s: string) {
    |s| >= 3 && EscapedSlash(s[..3])
  }

  predicate EndsEscaped(s: string) {
    |s| >= 3 && EscapedSlash(s[|s| - 3..])
  }

  /** A decoded path starts (or ends) in a slash exactly if the encoded one does, plainly or escaped. */
  lemma DecodedStart(s: string)
    requires WellFormed(s)
    ensures Starts(Decode(s).value) <==> Starts(s) || StartsEscaped(s)
    ensures Decode(s).value == "" <==> s == ""
  {
    if s != "" && s[0] == '%' { SlashEscapes(s[..3]); }
  }

  lemma LastEscape(s: string, k: nat)
    requires WellFormed(s) && s != "" && k == (if s[0] == '%' then 3 else 1) && |s| == k
    ensures Ends(Decode(s).value) <==> Ends(s) || EndsEscaped(s)
  {
    if k == 3 {
      assert s[..3] == s == s[0..];
      SlashEscapes(s);
      assert s[3..] == "";
    } else {
      DecodeSingle(s);
    }
  }

  /** An escape cannot straddle the boundary between the first character or escape and the rest. */
  lemma ShortRest(s: string, k: nat)
    requires WellFormed(s) && s != "" && k == (if s[0] == '%' then 3 else 1)
    requires 0 < |s| - k < 3
    ensures !EndsEscaped(s)
  {
    if |s| >= 3 {
      var tail := s[|s| - 3..];
      assert tail[0] == s[|s| - 3];
      if k == 3 { assert s[..3][1] == s[1] && s[..3][2] == s[2]; }
      assert tail[0] != '%';
      assert !EscapedSlash(tail);
    }
  }

  lemma EndOfRest(s: string, k: nat)
    requires WellFormed(s) && s != "" && k == (if s[0] == '%' then 3 else 1) && |s| > k
    ensures Ends(s) == Ends(s[k..]) && EndsEscaped(s) == EndsEscaped(s[k..])
  {
    var rest := s[k..];
    assert rest[|rest| - 1] == s[|s| - 1];
    if |rest| >= 3 {
      assert rest[|rest| - 3..] == s[|s| - 3..];
    } else {
      ShortRest(s, k);
    }
  }

  lemma {:induction false} DecodedEnd(s: string)
    requires WellFormed(s)
    ensures Ends(Decode(s).value) <==> Ends(s) || EndsEscaped(s)
  {
    if s == "" {
    } else {
      var k := if s[0] == '%' then 3 else 1;
      var rest := s[k..];
      DecodedEnd(rest);
      DecodedStart(rest);
      if rest == "" {
        LastEscape(s, k);
      } else {
        EndOfRest(s, k);
        var first := if k == 3 then EscapedByte(s[..3]) else s[0];
        assert Decode(s).value == [first] + Decode(rest).value;
      }
    }
  }

  lemma DecodeTail(r: string)
    requires WellFormed(r) && Starts(r)
    ensures WellFormed(r[1..]) && Decode(r).value[1..] == Decode(r[1..]).value
  {
  }

  /** Two nonempty paths joined as if the first ended in a slash, or not, and the second began with one,
      or not. */
  function JoinAs(x: string, y: string, ends: bool, starts: bool): string
    requires y != ""
  {
    if ends && starts then x + y[1..] else if !ends && !starts then x + "/" + y else x + y
  }

  lemma JoinStaysWellFormed(b: string, r: string)
    requires WellFormed(b) && WellFormed(r) && b != "" && r != ""
    ensures Decode(r).value != ""
    ensures Decode(Join(b, r)) == Some(JoinAs(Decode(b).value, Decode(r).value, Ends(b), Starts(r)))
  {
    DecodedStart(r);
    if Ends(b) && Starts(r) {
      DecodeTail(r);
      DecodeConcat(b, r[1..]);
    } else if !Ends(b) && !Starts(r) {
      DecodeSingle("/");
      DecodeConcat(b, "/");
      DecodeConcat(b + "/", r);
    } else {
      DecodeConcat(b, r);
    }
  }

  /** No escaped slash meets the boundary. */
  predicate PlainBoundary(b: string, r: string) {
    b == "" || r == "" || (!EndsEscaped(b) && !StartsEscaped(r))
  }

  lemma EscapedIsNotPlain(s: string)
    ensures EndsEscaped(s) ==> !Ends(s)
    ensures StartsEscaped(s) ==> !Starts(s)
  {
  }

  lemma BoundarySlashes(b: string, r: string)
    requires WellFormed(b) && WellFormed(r) && b != "" && r != ""
    ensures Decode(b).value != "" && Decode(r).value != ""
    ensures Ends(b) ==> Ends(Decode(b).value)
    ensures Starts(r) ==> Starts(Decode(r).value)
    ensures PlainBoundary(b, r) <==> Ends(b) == Ends(Decode(b).value) && Starts(r) == Starts(Decode(r).value)
  {
    DecodedStart(b);
    DecodedStart(r);
    DecodedEnd(b);
    EscapedIsNotPlain(b);
    EscapedIsNotPlain(r);
  }

  lemma JoinedAs(x: string, y: string, ends: bool, starts: bool)
    requires x != "" && y != "" && (ends ==> Ends(x)) && (starts ==> Starts(y))
    ensures JoinAs(x, y, ends, starts) == Join(x, y) <==> ends == Ends(x) && starts == Starts(y)
  {
  }

  /** Joining the encoded paths and decoding gives the join of the decoded paths, except when
      an escaped slash meets the boundary, and always except then. */
  lemma DecodeCommutesWithJoin(b: string, r: string)
    requires WellFormed(b) && WellFormed(r)
    ensures WellFormed(Join(b, r))
    ensures Decode(Join(b, r)).value == Join(Decode(b).value, Decode(r).value) <==> PlainBoundary(b, r)
  {
    if b == "" || r == "" {
      assert Join(b, r) == if b == "" then r else b;
    } else {
      JoinStaysWellFormed(b, r);
      BoundarySlashes(b, r);
      JoinedAs(Decode(b).value, Decode(r).value, Ends(b), Starts(r));
    }
  }

  // ---------- Rewriting the URL of a proxied request ----------

  /** The escaper of the URL library, and its test that a stored encoding may be used as it is. */
  datatype Escaper = Escaper(escape: string -> string, accepts: string -> bool) {
    ghost predicate Sound() {
      forall p :: Decode(escape(p)) == Some(p)
    }

    function EscapedPath(path: string, rawPath: string): string {
      if rawPath != "" && accepts(rawPath) && Decode(rawPath) == Some(path) then rawPath
      else if path == "*" then "*"
      else escape(path)
    }
  }

  lemma EscapedPathDecodes(x: Escaper, path: string, rawPath: string)
    requires x.Sound()
    ensures Decode(x.EscapedPath(path, rawPath)) == Some(path)
  {
  }

  class URL {
    var path: string
    var rawPath: string

    constructor (path: string, rawPath: string)
      ensures this.path == path && this.rawPath == rawPath
    {
      this.path, this.rawPath := path, rawPath;
    }

    /** The path of the request becomes the join of both paths, exactly if no escaped slash meets the
        boundary.  What then goes on the wire decodes to that path: it is the join of the escaped paths,
        if that had to be kept and the library accepts it, and the library's own escape of the path if
        the join escapes nothing. */
    method JoinProxyPath(target: URL, escaper: Escaper)
      requires escaper.Sound() && target != this
      modifies this
      ensures var b, r := escaper.EscapedPath(target.path, target.rawPath),
                          escaper.EscapedPath(old(path), old(rawPath));
              && Some(path) == Decode(Join(b, r))
              && rawPath == (if path == Join(b, r) then "" else Join(b, r))
              && (path == Join(target.path, old(path)) <==> PlainBoundary(b, r))
              && Decode(escaper.EscapedPath(path, rawPath)) == Some(path)
              && (path != Join(b, r) && escaper.accepts(Join(b, r)) ==>
                    escaper.EscapedPath(path, rawPath) == Join(b, r))
              && (path == Join(b, r) && path != "*" ==> escaper.EscapedPath(path, rawPath) == escaper.escape(path))
    {
      var base := escaper.EscapedPath(target.path, target.rawPath);
      var requestPath := escaper.EscapedPath(path, rawPath);
      EscapedPathDecodes(escaper, target.path, target.rawPath);
      EscapedPathDecodes(escaper, path, rawPath);
      DecodeCommutesWithJoin(base, requestPath);
      var joined := Join(base, requestPath);
      var decoded := Decode(joined);
      if decoded.None? {
        return;
      }
      path := decoded.value;
      if decoded.value == joined {
        rawPath := "";
      } else {
        rawPath := joined;
      }
      EscapedPathDecodes(escaper, path, rawPath);
    }
  }

  /** In particular for a request path that starts with a plain slash, as parsed ones do, and
      an upstream path that does not end in an escaped one. */
  lemma UsualPathsJoin(b: string, r: string)
    requires WellFormed(b) && WellFormed(r) && Starts(r) && !EndsEscaped(b)
    ensures Decode(Join(b, r)) == Some(Join(Decode(b).value, Decode(r).value))
  {
    assert !StartsEscaped(r) by { if |r| >= 3 { assert r[..3][0] == '/'; } }
    DecodeCommutesWithJoin(b, r);
  }
}
