/** Text helpers shared by both services: the piece splitting done by repeated
    `std::getline(stream, piece, delimiter)`, the integer parsing of `std::stoi`,
    `std::stoull` and `std::stof` (truncated into an `int`), the rendering of
    `std::to_string`, and `std::string::find`. */
module Wire {

  datatype Option<T> = None | Some(value: T)

  const INT_MIN: int := -0x8000_0000
  const INT_MAX: int := 0x7FFF_FFFF
  const UINT64_MODULUS: int := 0x1_0000_0000_0000_0000

  /** Division truncating toward zero, as C++ `/` does on signed integers. */
  function TruncDiv(a: int, b: int): (q: int)
    requires b > 0
    ensures (a >= 0 ==> q >= 0) && (a <= 0 ==> q <= 0)
  {
    if a >= 0 then a / b else -((-a) / b)
  }

  /** `std::abs`. */
  function Abs(x: int): nat { if x < 0 then -x else x }

  /** `std::max(0, x)`. */
  function Max0(x: int): (r: int)
    ensures r >= 0 && r >= x && (x >= 0 ==> r == x)
  {
    if x < 0 then 0 else x
  }

  /** `std::min`. */
  function Min(a: int, b: int): (r: int)
    ensures r <= a && r <= b && (r == a || r == b)
  {
    if a <= b then a else b
  }

  /** `std::max`. */
  function Max(a: int, b: int): (r: int)
    ensures r >= a && r >= b && (r == a || r == b)
  {
    if a >= b then a else b
  }

  /** A prefix one element longer. */
  lemma TakeOneMore<T>(s: seq<T>, i: nat)
    requires i < |s|
    ensures s[..i + 1] == s[..i] + [s[i]]
  {
  }

  // ---------------------------------------------------------------------
  // Splitting on a delimiter
  // ---------------------------------------------------------------------

  /** Every piece between delimiters, including a trailing empty one. */
  function SplitAll(s: string, d: char): (r: seq<string>)
    ensures |r| >= 1
    ensures forall i :: 0 <= i < |r| ==> d !in r[i]
    decreases |s|
  {
    if |s| == 0 then [[]]
    else
      var rest := SplitAll(s[1..], d);
      if s[0] == d then [[]] + rest
      else [[s[0]] + rest[0]] + rest[1..]
  }

  /** The pieces that repeated `std::getline(ss, piece, d)` yields: all pieces
      between delimiters, except that an empty piece at the very end of the
      input is not produced (getline fails when it extracts nothing). */
  function Split(s: string, d: char): (r: seq<string>)
    ensures forall i :: 0 <= i < |r| ==> d !in r[i]
    ensures s == [] <==> r == []
  {
    var all := SplitAll(s, d);
    SplitAllEmpty(s, d);
    if all[|all| - 1] == [] then all[..|all| - 1] else all
  }

  /** Joining pieces back with the delimiter. */
  function Join(pieces: seq<string>, d: char): string
    requires |pieces| >= 1
  {
    if |pieces| == 1 then pieces[0] else pieces[0] + [d] + Join(pieces[1..], d)
  }

  lemma {:induction false} SplitAllEmpty(s: string, d: char)
    ensures SplitAll(s, d) == [[]] <==> s == []
  {
    if s != [] {
      var rest := SplitAll(s[1..], d);
      if s[0] != d {
        assert SplitAll(s, d)[0] == [s[0]] + rest[0];
      } else {
        assert |SplitAll(s, d)| == 1 + |rest|;
      }
    }
  }

  /** Splitting loses nothing: the pieces joined with the delimiter give back the input. */
  lemma {:induction false} SplitAllJoin(s: string, d: char)
    ensures Join(SplitAll(s, d), d) == s
    decreases |s|
  {
    if |s| > 0 {
      var rest := SplitAll(s[1..], d);
      SplitAllJoin(s[1..], d);
      if s[0] == d {
        assert SplitAll(s, d) == [[]] + rest;
        assert ([[]] + rest)[1..] == rest;
        assert s == [d] + s[1..];
      } else {
        var all := SplitAll(s, d);
        assert all == [[s[0]] + rest[0]] + rest[1..];
        if |rest| == 1 {
          assert Join(rest, d) == rest[0];
          assert Join(all, d) == [s[0]] + rest[0];
        } else {
          assert all[1..] == rest[1..];
          assert Join(all, d) == ([s[0]] + rest[0]) + [d] + Join(rest[1..], d);
          assert Join(rest, d) == rest[0] + [d] + Join(rest[1..], d);
        }
        assert s == [s[0]] + s[1..];
      }
    }
  }

  /** A text without the delimiter is a single piece. */
  lemma {:induction false} SplitAllNoDelimiter(s: string, d: char)
    requires d !in s
    ensures SplitAll(s, d) == [s]
    decreases |s|
  {
    if |s| > 0 {
      assert d !in s[1..];
      SplitAllNoDelimiter(s[1..], d);
      assert s == [s[0]] + s[1..];
    }
  }

  /** A leading delimiter contributes one empty piece in front. */
  lemma SplitAllDelimiterFirst(s: string, d: char)
    ensures SplitAll([d] + s, d) == [[]] + SplitAll(s, d)
  {
    assert ([d] + s)[1..] == s;
  }

  /** A delimiter-free piece followed by a delimiter starts the piece list. */
  lemma {:induction false} SplitAllPrefix(a: string, s: string, d: char)
    requires d !in a
    ensures SplitAll(a + [d] + s, d) == [a] + SplitAll(s, d)
    decreases |a|
  {
    if |a| == 0 {
      assert a + [d] + s == [d] + s;
      SplitAllDelimiterFirst(s, d);
    } else {
      assert d !in a[1..];
      SplitAllPrefix(a[1..], s, d);
      assert (a + [d] + s)[1..] == a[1..] + [d] + s;
      assert [a[0]] + a[1..] == a;
    }
  }

  /** The `while (std::getline(ss, piece, d)) pieces.push_back(piece);` loop. */
  method Tokenize(s: string, d: char) returns (pieces: seq<string>)
    ensures pieces == Split(s, d)
  {
    pieces := [];
    var current: string := [];
    var i := 0;
    assert current + s[i..] == s;
    while i < |s|
      invariant 0 <= i <= |s|
      invariant d !in current
      invariant pieces + SplitAll(current + s[i..], d) == SplitAll(s, d)
    {
      TokenizeStep(s, d, i, pieces, current);
      if s[i] == d {
        pieces := pieces + [current];
        current := [];
        assert current + s[i + 1..] == s[i + 1..];
      } else {
        current := current + [s[i]];
      }
      i := i + 1;
    }
    assert current + s[i..] == current;
    SplitAllNoDelimiter(current, d);
    SplitLastPiece(s, d, pieces, current);
    if current != [] {
      pieces := pieces + [current];
    }
  }

  /** One character of the `Tokenize` loop keeps its invariant. */
  lemma TokenizeStep(s: string, d: char, i: nat, pieces: seq<string>, current: string)
    requires i < |s| && d !in current
    requires pieces + SplitAll(current + s[i..], d) == SplitAll(s, d)
    ensures s[i] == d ==> (pieces + [current]) + SplitAll(s[i + 1..], d) == SplitAll(s, d)
    ensures s[i] != d ==>
              d !in current + [s[i]] && pieces + SplitAll((current + [s[i]]) + s[i + 1..], d) == SplitAll(s, d)
  {
    if s[i] == d {
      assert current + s[i..] == current + [d] + s[i + 1..];
      SplitAllPrefix(current, s[i + 1..], d);
    } else {
      assert current + s[i..] == (current + [s[i]]) + s[i + 1..];
    }
  }

  /** `Split` drops the last of all pieces exactly when it is empty. */
  lemma SplitLastPiece(s: string, d: char, init: seq<string>, last: string)
    requires SplitAll(s, d) == init + [last]
    ensures Split(s, d) == if last == [] then init else init + [last]
  {
    var all := SplitAll(s, d);
    assert all[|all| - 1] == last;
    assert all[..|all| - 1] == init;
  }

  // ---------------------------------------------------------------------
  // Integer parsing (std::stoi, std::stoull, std::stof) and rendering
  // ---------------------------------------------------------------------

  predicate IsDigit(c: char) { '0' <= c <= '9' }

  /** The characters `isspace` accepts in the "C" locale. */
  predicate IsSpace(c: char) {
    c == ' ' || c == '\t' || c == '\n' || c == '\U{000B}' || c == '\U{000C}' || c == '\r'
  }

  predicate AllDigits(s: string) { forall i :: 0 <= i < |s| ==> IsDigit(s[i]) }

  function DropSpaces(s: string): (r: string)
    ensures |r| <= |s|
    ensures r == [] || !IsSpace(r[0])
  {
    if |s| > 0 && IsSpace(s[0]) then DropSpaces(s[1..]) else s
  }

  /** The longest prefix of decimal digits. */
  function LeadingDigits(s: string): (r: string)
    ensures |r| <= |s| && r <= s
    ensures AllDigits(r)
    ensures |r| < |s| ==> !IsDigit(s[|r|])
  {
    if |s| > 0 && IsDigit(s[0]) then [s[0]] + LeadingDigits(s[1..]) else []
  }

  /** The value of a decimal digit string, most significant digit first. */
  function DigitsValue(s: string): (v: nat)
    requires AllDigits(s)
  {
    if s == [] then 0
    else DigitsValue(s[..|s| - 1]) * 10 + (s[|s| - 1] as int - '0' as int)
  }

  /** A sign and the digits after it, read the way `strtol`/`strtoull` read
      them: leading white space skipped, an optional sign, at least one digit,
      reading stops at the first non-digit. None when there is no digit,
      which `std::stoi` reports by throwing `invalid_argument`. */
  function ParseLeadingInteger(s: string): Option<int>
  {
    var t := DropSpaces(s);
    var negative := |t| > 0 && t[0] == '-';
    var u := if |t| > 0 && (t[0] == '+' || t[0] == '-') then t[1..] else t;
    var ds := LeadingDigits(u);
    if ds == [] then None
    else var v: int := var m: int := DigitsValue(ds); if negative then -m else m; Some(v)
  }

  /** `std::stoi`: the leading integer, or None where it throws (no digits,
      or a value outside the 32-bit `int` range). */
  function StoI(s: string): (r: Option<int>)
    ensures r.Some? ==> INT_MIN <= r.value <= INT_MAX
    ensures r.Some? ==> ParseLeadingInteger(s) == r
    ensures ParseLeadingInteger(s).Some? && INT_MIN <= ParseLeadingInteger(s).value <= INT_MAX ==> r.Some?
  {
    match ParseLeadingInteger(s)
    case Some(v) => if INT_MIN <= v <= INT_MAX then Some(v) else None
    case None => None
  }

  /** `std::stoull`: a negative reading wraps modulo 2^64, as `strtoull`
      negates in unsigned arithmetic; magnitudes of 2^64 or more throw. */
  function StoULL(s: string): (r: Option<nat>)
    ensures r.Some? ==> r.value < UINT64_MODULUS
  {
    match ParseLeadingInteger(s)
    case Some(v) =>
      if v >= UINT64_MODULUS || -v >= UINT64_MODULUS then None
      else if v >= 0 then Some(v) else Some(v + UINT64_MODULUS)
    case None => None
  }

  /** `std::stof` of a plain decimal (sign, digits, optional fraction), then
      the implicit conversion to `int`, which truncates toward zero: the
      integer part, or 0 for a bare fraction such as ".5". None when no digit
      is present, where `std::stof` throws. */
  function StoFTruncated(s: string): (r: Option<int>)
    ensures ParseLeadingInteger(s).Some? ==> r == ParseLeadingInteger(s)
    ensures ParseLeadingInteger(s).None? ==> (r.Some? <==> BareFraction(s)) && (r.Some? ==> r.value == 0)
  {
    match ParseLeadingInteger(s)
    case Some(v) => Some(v)
    case None => if BareFraction(s) then Some(0) else None
  }

  /** After the white space and the sign, a point and a digit. */
  predicate BareFraction(s: string)
  {
    var t := DropSpaces(s);
    var u := if |t| > 0 && (t[0] == '+' || t[0] == '-') then t[1..] else t;
    |u| >= 2 && u[0] == '.' && IsDigit(u[1])
  }

  function DigitChar(d: nat): (c: char)
    requires d < 10
    ensures IsDigit(c) && c as int - '0' as int == d
  {
    ('0' as int + d) as char
  }

  /** Decimal rendering of a natural number. */
  function NatToString(n: nat): (s: string)
    ensures |s| >= 1 && AllDigits(s)
  {
    if n < 10 then [DigitChar(n)] else NatToString(n / 10) + [DigitChar(n % 10)]
  }

  /** `std::to_string` of an integer. */
  function IntToString(n: int): (s: string)
    ensures |s| >= 1
    ensures n >= 0 ==> AllDigits(s)
    ensures n < 0 ==> s[0] == '-' && AllDigits(s[1..])
  {
    if n >= 0 then NatToString(n) else "-" + NatToString(-n)
  }

  lemma {:induction false} NatToStringValue(n: nat)
    ensures DigitsValue(NatToString(n)) == n
  {
    if n >= 10 {
      NatToStringValue(n / 10);
      var s := NatToString(n);
      assert s[..|s| - 1] == NatToString(n / 10);
    }
  }

  lemma {:induction false} LeadingDigitsOfDigits(s: string)
    requires AllDigits(s)
    ensures LeadingDigits(s) == s
  {
    if |s| > 0 {
      LeadingDigitsOfDigits(s[1..]);
    }
  }

  lemma DropSpacesNoSpace(s: string)
    requires s == [] || !IsSpace(s[0])
    ensures DropSpaces(s) == s
  {
  }

  /** Parsing an unsigned digit string. */
  lemma ParseDigits(ds: string)
    requires |ds| >= 1 && AllDigits(ds)
    ensures ParseLeadingInteger(ds) == Some(DigitsValue(ds) as int)
  {
    LeadingDigitsOfDigits(ds);
    assert IsDigit(ds[0]);
    DropSpacesNoSpace(ds);
  }

  /** Parsing a minus sign followed by a digit string. */
  lemma ParseNegativeDigits(ds: string)
    requires |ds| >= 1 && AllDigits(ds)
    ensures ParseLeadingInteger("-" + ds) == Some(-(DigitsValue(ds) as int))
  {
    var t := "-" + ds;
    assert t[0] == '-' && t[1..] == ds;
    DropSpacesNoSpace(t);
    LeadingDigitsOfDigits(ds);
    ParseSigned(t, ds);
  }

  lemma ParseSigned(t: string, ds: string)
    requires DropSpaces(t) == t && |t| > 0 && t[0] == '-'
    requires LeadingDigits(t[1..]) == ds && |ds| >= 1
    ensures ParseLeadingInteger(t) == Some(-(DigitsValue(ds) as int))
  {
  }

  /** Rendering then parsing gives the number back (the leading value of a
      `std::to_string` text). */
  lemma IntToStringParses(n: int)
    ensures ParseLeadingInteger(IntToString(n)) == Some(n)
  {
    if n >= 0 {
      ParseDigits(NatToString(n));
      NatToStringValue(n);
    } else {
      ParseNegativeDigits(NatToString(-n));
      NatToStringValue(-n);
    }
  }

  /** `std::stoi(std::to_string(n)) == n` for every 32-bit `n`. */
  lemma StoIRoundTrip(n: int)
    requires INT_MIN <= n <= INT_MAX
    ensures StoI(IntToString(n)) == Some(n)
  {
    IntToStringParses(n);
  }

  /** A rendered number holds none of the protocol's separators. */
  lemma IntToStringPlain(n: int)
    ensures ';' !in IntToString(n) && ':' !in IntToString(n) && '|' !in IntToString(n)
  {
    var s := IntToString(n);
    if n < 0 {
      assert forall i :: 1 <= i < |s| ==> IsDigit(s[i]) by {
        forall i | 1 <= i < |s| ensures IsDigit(s[i]) { assert s[i] == s[1..][i - 1]; }
      }
    }
  }

  /** `s.find(sub) != std::string::npos`. */
  predicate HasSubstring(s: string, sub: string) {
    exists i :: 0 <= i <= |s| - |sub| && OccursAt(s, sub, i)
  }

  predicate OccursAt(s: string, sub: string, i: int)
    requires 0 <= i <= |s| - |sub|
  {
    s[i..i + |sub|] == sub
  }

  /** `s.find(c)`: the index of the first `c`, None for `npos`. */
  function FindChar(s: string, c: char): (r: Option<nat>)
    ensures r.Some? ==> r.value < |s| && s[r.value] == c && c !in s[..r.value]
    ensures r.None? ==> c !in s
  {
    if |s| == 0 then None
    else if s[0] == c then Some(0)
    else match FindChar(s[1..], c)
      case None => None
      case Some(k) => Some(k + 1)
  }
}
