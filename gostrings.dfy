/** The pieces of Go's `strings` and `strconv` packages the crawler relies on:
    white-space trimming, splitting on a one-character separator, decimal
    parsing into a 64-bit integer and decimal formatting (`%d`). */
module GoStrings {
  import opened Wrappers

  /** unicode.IsSpace: the Latin-1 spaces and the other Unicode White_Space characters. */
  predicate IsSpace(c: char)
  {
    var n := c as int;
    (0x09 <= n <= 0x0D) || n == 0x20 || n == 0x85 || n == 0xA0 || n == 0x1680
    || (0x2000 <= n <= 0x200A) || n == 0x2028 || n == 0x2029 || n == 0x202F
    || n == 0x205F || n == 0x3000
  }

  predicate NoSpace(s: string)
  {
    forall i :: 0 <= i < |s| ==> !IsSpace(s[i])
  }

  // ---------------------------------------------------------------------------
  // strings.TrimSpace

  /** The number of white-space characters `s` starts with. */
  function LeadingSpaces(s: string): (n: nat)
    ensures n <= |s|
    ensures forall i :: 0 <= i < n ==> IsSpace(s[i])
    ensures n == |s| || !IsSpace(s[n])
  {
    if s != [] && IsSpace(s[0]) then 1 + LeadingSpaces(s[1..]) else 0
  }

  /** strings.TrimSpace: drops every leading and trailing white-space
      character, so the result neither starts nor ends with one. */
  function TrimSpace(s: string): (r: string)
    ensures |r| <= |s|
    ensures r == [] || (!IsSpace(r[0]) && !IsSpace(r[|r| - 1]))
    decreases |s|
  {
    if s != [] && IsSpace(s[0]) then TrimSpace(s[1..])
    else if s != [] && IsSpace(s[|s| - 1]) then TrimSpace(s[..|s| - 1])
    else s
  }

  /** TrimSpace keeps a slice of `s`: the one that starts right after the leading white space. */
  lemma {:induction false} TrimSpaceIsSlice(s: string)
    ensures LeadingSpaces(s) + |TrimSpace(s)| <= |s|
    ensures TrimSpace(s) == s[LeadingSpaces(s)..LeadingSpaces(s) + |TrimSpace(s)|]
    decreases |s|
  {
    if s != [] && IsSpace(s[0]) {
      TrimSpaceIsSlice(s[1..]);
    } else if s != [] && IsSpace(s[|s| - 1]) {
      var t := s[..|s| - 1];
      TrimSpaceIsSlice(t);
      assert LeadingSpaces(t) == 0 by {
        assert t[0] == s[0];
      }
    }
  }

  /** TrimSpace removes only white space: what follows the kept slice is white space too. */
  lemma {:induction false} TrimSpaceDropsOnlySpaces(s: string)
    ensures LeadingSpaces(s) + |TrimSpace(s)| <= |s|
    ensures forall i :: LeadingSpaces(s) + |TrimSpace(s)| <= i < |s| ==> IsSpace(s[i])
    decreases |s|
  {
    TrimSpaceIsSlice(s);
    if s != [] && IsSpace(s[0]) {
      TrimSpaceDropsOnlySpaces(s[1..]);
    } else if s != [] && IsSpace(s[|s| - 1]) {
      var t := s[..|s| - 1];
      TrimSpaceDropsOnlySpaces(t);
      assert LeadingSpaces(t) == 0 by {
        assert t[0] == s[0];
      }
    }
  }

  /** A string that neither starts nor ends with white space is its own trimmed form. */
  lemma TrimSpaceOfTrimmed(s: string)
    requires s == [] || (!IsSpace(s[0]) && !IsSpace(s[|s| - 1]))
    ensures TrimSpace(s) == s
  {
  }

  // ---------------------------------------------------------------------------
  // strings.Split and strings.Join with a one-character separator

  /** strings.Join(parts, string(sep)). */
  function Join(parts: seq<string>, sep: char): string
    requires |parts| >= 1
  {
    if |parts| == 1 then parts[0] else parts[0] + [sep] + Join(parts[1..], sep)
  }

  predicate SepFree(parts: seq<string>, sep: char)
  {
    forall k :: 0 <= k < |parts| ==> sep !in parts[k]
  }

  /** strings.Split(s, string(sep)): the pieces between separators, in order;
      there is always at least one piece (`Split("", " ")` is `[""]`), no piece
      holds the separator and joining the pieces gives `s` back. */
  function Split(s: string, sep: char): (parts: seq<string>)
    ensures |parts| >= 1
    decreases |s|
  {
    if s == [] then [[]]
    else
      var rest := Split(s[1..], sep);
      if s[0] == sep then [[]] + rest
      else [[s[0]] + rest[0]] + rest[1..]
  }

  /** No piece of a split holds the separator, and joining the pieces gives the string back. */
  lemma {:induction false} SplitJoinsBack(s: string, sep: char)
    ensures SepFree(Split(s, sep), sep)
    ensures Join(Split(s, sep), sep) == s
    decreases |s|
  {
    if s != [] {
      var rest := Split(s[1..], sep);
      SplitJoinsBack(s[1..], sep);
      var parts := Split(s, sep);
      if s[0] == sep {
        assert parts[1..] == rest;
      } else {
        assert parts[1..] == rest[1..];
        assert |rest| > 1 ==> Join(rest, sep) == rest[0] + [sep] + Join(rest[1..], sep);
      }
    }
  }

  /** A join of two or more pieces starts with the first piece and then the separator. */
  lemma JoinHead(parts: seq<string>, sep: char)
    requires |parts| >= 2
    ensures |Join(parts, sep)| > |parts[0]|
    ensures Join(parts, sep)[..|parts[0]|] == parts[0]
    ensures Join(parts, sep)[|parts[0]|] == sep
  {
  }

  /** Two separator-free piece lists with the same join are the same list. */
  lemma {:induction false} JoinInjective(p: seq<string>, q: seq<string>, sep: char)
    requires |p| >= 1 && |q| >= 1
    requires SepFree(p, sep) && SepFree(q, sep)
    requires Join(p, sep) == Join(q, sep)
    ensures p == q
    decreases |p|
  {
    var s := Join(p, sep);
    if |p| == 1 && |q| == 1 {
    } else if |p| == 1 {
      assert false;
    } else if |q| == 1 {
      assert false;
    } else if |p[0]| < |q[0]| {
      JoinHead(p, sep);
      JoinHead(q, sep);
      assert false;
    } else if |q[0]| < |p[0]| {
      JoinHead(p, sep);
      JoinHead(q, sep);
      assert false;
    } else {
      assert p[0] == s[..|p[0]|] == q[0];
      var n := |p[0]| + 1;
      assert Join(p[1..], sep) == s[n..] == Join(q[1..], sep);
      JoinInjective(p[1..], q[1..], sep);
      assert p == [p[0]] + p[1..];
      assert q == [q[0]] + q[1..];
    }
  }

  /** Splitting a joined list of separator-free pieces gives the pieces back. */
  lemma SplitJoin(parts: seq<string>, sep: char)
    requires |parts| >= 1 && SepFree(parts, sep)
    ensures Split(Join(parts, sep), sep) == parts
  {
    var s := Join(parts, sep);
    SplitJoinsBack(s, sep);
    JoinInjective(Split(s, sep), parts, sep);
  }

  // ---------------------------------------------------------------------------
  // strconv: decimal numerals and 64-bit integers

  const MinInt64: int := -0x8000_0000_0000_0000
  const MaxInt64: int := 0x7FFF_FFFF_FFFF_FFFF

  predicate InInt64(n: int)
  {
    MinInt64 <= n <= MaxInt64
  }

  /** Go's `int` on a 64-bit platform. */
  type Int64 = n: int | InInt64(n)

  predicate IsDigit(c: char)
  {
    '0' <= c <= '9'
  }

  predicate AllDigits(s: string)
  {
    forall i :: 0 <= i < |s| ==> IsDigit(s[i])
  }

  function DigitValue(c: char): nat
    requires IsDigit(c)
  {
    (c as int) - ('0' as int)
  }

  function DigitChar(d: nat): char
    requires d < 10
  {
    (('0' as int) + d) as char
  }

  /** The value of a decimal numeral, most significant digit first, or None
      when some character is not an ASCII digit. */
  function DecimalValue(s: string): Option<nat>
  {
    if s == [] then Some(0)
    else
      var last := s[|s| - 1];
      match DecimalValue(s[..|s| - 1])
      case None => None
      case Some(v) => if IsDigit(last) then Some(10 * v + DigitValue(last)) else None
  }

  /** A numeral has a value exactly when all its characters are digits. */
  lemma {:induction false} DecimalValueDefined(s: string)
    ensures DecimalValue(s).Some? <==> AllDigits(s)
  {
    if s != [] {
      DecimalValueDefined(s[..|s| - 1]);
      assert AllDigits(s) <==> AllDigits(s[..|s| - 1]) && IsDigit(s[|s| - 1]);
    }
  }

  /** strconv.ParseInt(s, 10, 64), which is also strconv.Atoi on a 64-bit
      platform: an optional `+` or `-`, then one or more ASCII digits, with a
      value inside the int64 range; anything else (the empty string, a space,
      a lone sign, a second sign, an underscore, an overflow) is an error. */
  function ParseInt64(s: string): (r: Option<int>)
    ensures r.Some? ==> InInt64(r.value)
  {
    if s == [] then None
    else
      var neg := s[0] == '-';
      var digits := if s[0] == '+' || s[0] == '-' then s[1..] else s;
      if digits == [] then None
      else
        match DecimalValue(digits)
        case None => None
        case Some(d) =>
          var v := if neg then 0 - d as int else d as int;
          if InInt64(v) then Some(v) else None
  }

  /** The value a sign and a run of digits stand for: the digits' decimal
      value, negated after a minus. */
  function SignedValue(sign: string, digits: string): int
    requires AllDigits(digits)
  {
    DecimalValueDefined(digits);
    var d: int := DecimalValue(digits).value;
    if sign == "-" then -d else d
  }

  /** What ParseInt64 accepts: at most one leading sign, then a non-empty run
      of ASCII digits (so never the empty string and never white space), and
      the result is the value that sign and digits stand for. */
  lemma ParsedNumeralShape(s: string)
    requires ParseInt64(s).Some?
    ensures |s| > 0 && (s[0] == '+' || s[0] == '-' || IsDigit(s[0]))
    ensures AllDigits(s[1..]) && NoSpace(s)
    ensures IsDigit(s[0]) ==> ParseInt64(s).value == SignedValue("", s)
    ensures !IsDigit(s[0]) ==> |s| > 1 && ParseInt64(s).value == SignedValue(s[..1], s[1..])
    ensures ParseInt64(s).value < 0 ==> s[0] == '-'
  {
    var digits := if s[0] == '+' || s[0] == '-' then s[1..] else s;
    DecimalValueDefined(digits);
    assert forall i :: 1 <= i < |s| ==> s[i] == digits[i - |s| + |digits|];
    assert s[..1] == "-" <==> s[0] == '-';
  }

  /** Every optional sign followed by a non-empty run of ASCII digits is
      accepted when its value is an int64, leading zeros and a `+` included,
      and rejected as out of range otherwise. */
  lemma ParseSignedNumeral(sign: string, digits: string)
    requires sign == "" || sign == "+" || sign == "-"
    requires digits != [] && AllDigits(digits)
    ensures InInt64(SignedValue(sign, digits)) ==> ParseInt64(sign + digits) == Some(SignedValue(sign, digits))
    ensures !InInt64(SignedValue(sign, digits)) ==> ParseInt64(sign + digits) == None
  {
    var s := sign + digits;
    DecimalValueDefined(digits);
    if sign == "" {
      assert s == digits;
    } else {
      assert s[0] == sign[0] && s[1..] == digits;
    }
  }

  /** strconv.Atoi accepts leading zeros and a plus sign. */
  lemma ParseLeadingZeroAndPlus()
    ensures ParseInt64("0250") == Some(250)
    ensures ParseInt64("+5") == Some(5)
  {
    assert DecimalValue("0") == Some(0) by { assert "0"[..0] == []; }
    assert DecimalValue("02") == Some(2) by { assert "02"[..1] == "0"; }
    assert DecimalValue("025") == Some(25) by { assert "025"[..2] == "02"; }
    assert DecimalValue("0250") == Some(250) by { assert "0250"[..3] == "025"; }
    assert DecimalValue("5") == Some(5) by { assert "5"[..0] == []; }
    ParseSignedNumeral("", "0250");
    ParseSignedNumeral("+", "5");
    assert "" + "0250" == "0250" && "+" + "5" == "+5";
  }

  /** The decimal numeral of a natural number: it reads back as `n` and has no
      leading zero, unless it is "0" itself. */
  function FormatNat(n: nat): (s: string)
    ensures |s| >= 1 && AllDigits(s)
    ensures DecimalValue(s) == Some(n)
    ensures |s| == 1 || s[0] != '0'
  {
    if n < 10 then
      var s := [DigitChar(n)];
      assert s[..0] == [];
      s
    else
      var t := FormatNat(n / 10);
      var s := t + [DigitChar(n % 10)];
      assert s[..|s| - 1] == t;
      assert t[0] != '0' by {
        if |t| == 1 {
          assert t[..0] == [];
        }
      }
      s
  }

  /** fmt's `%d`: a minus sign for negative numbers, then the canonical
      digits of the magnitude. */
  function FormatInt(n: int): (s: string)
    ensures |s| >= 1
    ensures s[0] == '-' <==> n < 0
  {
    if n < 0 then "-" + FormatNat(-n) else FormatNat(n)
  }

  /** After the optional minus sign, `%d` prints the canonical digits of the
      magnitude: no leading zero unless the number is 0, reading back as the
      magnitude. */
  lemma FormatIntDigits(n: int)
    ensures n < 0 ==> var s := FormatInt(n);
      |s| >= 2 && AllDigits(s[1..]) && s[1] != '0' && DecimalValue(s[1..]) == Some(-n)
    ensures n >= 0 ==> var s := FormatInt(n);
      AllDigits(s) && (|s| == 1 || s[0] != '0') && DecimalValue(s) == Some(n)
  {
    if n < 0 {
      assert FormatInt(n)[1..] == FormatNat(-n);
    }
  }

  /** Parsing what `%d` prints gives the number back, for every int64. */
  lemma ParseFormatInt(n: int)
    requires InInt64(n)
    ensures ParseInt64(FormatInt(n)) == Some(n)
  {
    var s := FormatInt(n);
    if n < 0 {
      assert s[0] == '-' && s[1..] == FormatNat(-n);
    } else {
      assert IsDigit(s[0]);
    }
  }

  /** `%d` prints distinct numbers as distinct strings. */
  lemma FormatIntInjective(m: int, n: int)
    requires InInt64(m) && InInt64(n)
    requires FormatInt(m) == FormatInt(n)
    ensures m == n
  {
    ParseFormatInt(m);
    ParseFormatInt(n);
  }
}
