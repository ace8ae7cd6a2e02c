/** The few PHP string primitives the library relies on: `trim`, `explode`
    with a one-character delimiter, `str_starts_with`, `is_numeric` and the
    `(int)` cast, each written out on `seq<char>`. */
module Text {
  import opened Common

  // ---------------------------------------------------------------------
  // trim()
  // ---------------------------------------------------------------------

  /** The characters PHP's `trim` strips by default: space, tab, line feed,
      carriage return, NUL and vertical tab. */
  predicate IsTrimmable(c: char)
  {
    c == ' ' || c == '\t' || c == '\n' || c == '\r' || c == '\0' || c == '\U{000B}'
  }

  predicate AllTrimmable(s: string)
  {
    forall k | 0 <= k < |s| :: IsTrimmable(s[k])
  }

  /** Neither end of `s` can be stripped any further. */
  predicate IsTrimmed(s: string)
  {
    |s| == 0 || (!IsTrimmable(s[0]) && !IsTrimmable(s[|s| - 1]))
  }

  function TrimStart(s: string): (r: string)
    ensures |r| <= |s| && r == s[|s| - |r|..]
    ensures AllTrimmable(s[..|s| - |r|])
    ensures |r| == 0 || !IsTrimmable(r[0])
  {
    if |s| > 0 && IsTrimmable(s[0]) then
      var r := TrimStart(s[1..]);
      assert s[|s| - |r|..] == s[1..][|s| - 1 - |r|..];
      assert AllTrimmable(s[..|s| - |r|]) by {
        var dropped := s[..|s| - |r|];
        forall k | 0 <= k < |dropped| ensures IsTrimmable(dropped[k]) {
          if k > 0 {
            assert dropped[k] == s[1..][..|s| - 1 - |r|][k - 1];
          }
        }
      }
      r
    else s
  }

  function TrimEnd(s: string): (r: string)
    ensures |r| <= |s| && r == s[..|r|]
    ensures AllTrimmable(s[|r|..])
    ensures |r| == 0 || !IsTrimmable(r[|r| - 1])
  {
    if |s| > 0 && IsTrimmable(s[|s| - 1]) then
      var r := TrimEnd(s[..|s| - 1]);
      assert s[..|r|] == s[..|s| - 1][..|r|];
      assert AllTrimmable(s[|r|..]) by {
        var dropped := s[|r|..];
        forall k | 0 <= k < |dropped| ensures IsTrimmable(dropped[k]) {
          if k < |dropped| - 1 {
            assert dropped[k] == s[..|s| - 1][|r|..][k];
          }
        }
      }
      r
    else s
  }

  /** `r` is `s` with some trimmable prefix and some trimmable suffix cut off. */
  ghost predicate StripsPadding(s: string, r: string)
  {
    exists i, j | 0 <= i <= j <= |s| :: r == s[i..j] && AllTrimmable(s[..i]) && AllTrimmable(s[j..])
  }

  /** PHP `trim($s)`: `s` with its trimmable prefix and suffix removed. */
  function Trim(s: string): (r: string)
    ensures IsTrimmed(r)
    ensures |r| <= |s|
  {
    TrimEnd(TrimStart(s))
  }

  /** What `trim` returns is a piece of its input with only trimmable
      characters cut away around it. */
  lemma TrimStripsPadding(s: string)
    ensures StripsPadding(s, Trim(s))
  {
    var a := TrimStart(s);
    var r := TrimEnd(a);
    var i := |s| - |a|;
    var j := i + |r|;
    assert a == s[i..];
    assert r == s[i..j];
    assert s[j..] == a[|r|..];
  }

  lemma {:induction false} TrimStartPadded(pad: string, s: string)
    requires AllTrimmable(pad)
    requires |s| == 0 || !IsTrimmable(s[0])
    ensures TrimStart(pad + s) == s
  {
    if |pad| > 0 {
      assert (pad + s)[1..] == pad[1..] + s;
      TrimStartPadded(pad[1..], s);
    } else {
      assert pad + s == s;
    }
  }

  lemma {:induction false} TrimEndPadded(s: string, pad: string)
    requires AllTrimmable(pad)
    requires |s| == 0 || !IsTrimmable(s[|s| - 1])
    ensures TrimEnd(s + pad) == s
  {
    if |pad| > 0 {
      assert (s + pad)[..|s + pad| - 1] == s + pad[..|pad| - 1];
      TrimEndPadded(s, pad[..|pad| - 1]);
    } else {
      assert s + pad == s;
    }
  }

  lemma {:induction false} TrimStartAllTrimmable(s: string)
    requires AllTrimmable(s)
    ensures TrimStart(s) == []
  {
    if |s| > 0 {
      TrimStartAllTrimmable(s[1..]);
    }
  }

  /** Leading whitespace before a trimmed string is all `trim` removes. */
  lemma TrimLeading(pad: string, core: string)
    requires AllTrimmable(pad) && IsTrimmed(core)
    ensures Trim(pad + core) == core
  {
    TrimStartPadded(pad, core);
  }

  /** Trailing whitespace after a trimmed string is all `trim` removes. */
  lemma TrimTrailing(core: string, pad: string)
    requires IsTrimmed(core) && AllTrimmable(pad)
    ensures Trim(core + pad) == core
  {
    if |core| == 0 {
      assert core + pad == pad;
      TrimStartAllTrimmable(pad);
    } else {
      assert (core + pad)[0] == core[0];
      TrimEndPadded(core, pad);
    }
  }

  /** `trim` removes exactly the padding around a string that is already
      trimmed: whatever whitespace surrounds `core`, the result is `core`. */
  lemma TrimPadded(before: string, core: string, after: string)
    requires AllTrimmable(before) && AllTrimmable(after)
    requires IsTrimmed(core)
    ensures Trim(before + core + after) == core
  {
    var s := before + core + after;
    if |core| == 0 {
      assert AllTrimmable(s) by {
        forall k | 0 <= k < |s| ensures IsTrimmable(s[k]) {
          if k < |before| {
            assert s[k] == before[k];
          } else {
            assert s[k] == after[k - |before|];
          }
        }
      }
      TrimStartAllTrimmable(s);
    } else {
      assert s == before + (core + after);
      TrimStartPadded(before, core + after);
      TrimEndPadded(core, after);
    }
  }

  /** A string that is already trimmed is left alone. */
  lemma TrimTrimmed(s: string)
    requires IsTrimmed(s)
    ensures Trim(s) == s
  {
    TrimStartPadded([], s);
    assert [] + s == s;
    TrimEndPadded(s, []);
    assert s + [] == s;
  }

  /** `trim` is idempotent. */
  lemma TrimIdempotent(s: string)
    ensures Trim(Trim(s)) == Trim(s)
  {
    TrimTrimmed(Trim(s));
  }

  // ---------------------------------------------------------------------
  // explode() with a single-character delimiter
  // ---------------------------------------------------------------------

  /** Glues `parts` back together with `sep` between neighbours (PHP `implode`). */
  function Join(parts: seq<string>, sep: char): string
    requires |parts| >= 1
  {
    if |parts| == 1 then parts[0] else parts[0] + [sep] + Join(parts[1..], sep)
  }

  /** PHP `explode($sep, $s)`: the maximal `sep`-free pieces of `s`, in
      order. There is always at least one piece; an empty string gives `[""]`. */
  function Split(s: string, sep: char): (parts: seq<string>)
    ensures |parts| >= 1
    ensures forall k | 0 <= k < |parts| :: sep !in parts[k]
    ensures Join(parts, sep) == s
    ensures |parts| == Occurrences(s, sep) + 1
  {
    if |s| == 0 then [""]
    else
      var rest := Split(s[1..], sep);
      if s[0] == sep then
        assert s == [sep] + s[1..];
        [""] + rest
      else
        var parts := [[s[0]] + rest[0]] + rest[1..];
        assert parts[1..] == rest[1..];
        assert s == [s[0]] + s[1..];
        parts
  }

  lemma {:induction false} SplitSepFree(a: string, sep: char)
    requires sep !in a
    ensures Split(a, sep) == [a]
  {
    if |a| > 0 {
      SplitSepFree(a[1..], sep);
      assert a == [a[0]] + a[1..];
    }
  }

  lemma {:induction false} SplitAfterPiece(a: string, sep: char, t: string)
    requires sep !in a
    ensures Split(a + [sep] + t, sep) == [a] + Split(t, sep)
  {
    if |a| == 0 {
      assert a + [sep] + t == [sep] + t;
      assert ([sep] + t)[1..] == t;
    } else {
      assert (a + [sep] + t)[1..] == a[1..] + [sep] + t;
      SplitAfterPiece(a[1..], sep, t);
      assert a == [a[0]] + a[1..];
    }
  }

  /** `explode` undoes `implode` whenever no piece contains the delimiter,
      so a string has exactly one decomposition into delimiter-free pieces. */
  lemma {:induction false} SplitJoin(parts: seq<string>, sep: char)
    requires |parts| >= 1
    requires forall k | 0 <= k < |parts| :: sep !in parts[k]
    ensures Split(Join(parts, sep), sep) == parts
  {
    if |parts| == 1 {
      SplitSepFree(parts[0], sep);
    } else {
      SplitJoin(parts[1..], sep);
      SplitAfterPiece(parts[0], sep, Join(parts[1..], sep));
      assert parts == [parts[0]] + parts[1..];
    }
  }

  lemma JoinTwo(a: string, sep: char, b: string)
    ensures Join([a, b], sep) == a + [sep] + b
  {
    assert [a, b][1..] == [b];
  }

  /** A string with exactly one `sep` splits into the pieces on either side of it. */
  lemma SplitTwo(a: string, sep: char, b: string)
    requires sep !in a && sep !in b
    ensures Split(a + [sep] + b, sep) == [a, b]
  {
    SplitJoin([a, b], sep);
    assert [a, b][1..] == [b];
  }

  /** A string that splits into two pieces is the first piece, one `sep`
      and the second piece. */
  lemma SplitInTwo(s: string, sep: char)
    requires |Split(s, sep)| == 2
    ensures var parts := Split(s, sep);
            var k := |parts[0]|;
            k < |s| && s[k] == sep && s[..k] == parts[0] && s[k + 1..] == parts[1]
  {
    var parts := Split(s, sep);
    assert parts == [parts[0], parts[1]];
    JoinTwo(parts[0], sep, parts[1]);
  }

  // ---------------------------------------------------------------------
  // str_starts_with()
  // ---------------------------------------------------------------------

  /** PHP `str_starts_with($s, $prefix)`, case-sensitive. */
  function StartsWith(s: string, prefix: string): (b: bool)
    // `s` is `prefix` followed by the rest of it, and every such string qualifies
    ensures b ==> |prefix| <= |s| && s == prefix + s[|prefix|..]
    ensures forall rest :: s == prefix + rest ==> b
  {
    |prefix| <= |s| && s[..|prefix|] == prefix
  }

  // ---------------------------------------------------------------------
  // Decimal integers: is_numeric() and the (int) cast
  // ---------------------------------------------------------------------

  predicate IsDigit(c: char)
  {
    '0' <= c <= '9'
  }

  predicate AllDigits(s: string)
  {
    forall k | 0 <= k < |s| :: IsDigit(s[k])
  }

  function DigitValue(c: char): nat
    requires IsDigit(c)
  {
    (c as int) - ('0' as int)
  }

  function DigitChar(d: nat): (c: char)
    requires d < 10
    ensures IsDigit(c) && DigitValue(c) == d
  {
    (('0' as int) + d) as char
  }

  /** The value of a run of decimal digits, most significant first. */
  function DigitsValue(ds: string): nat
    requires AllDigits(ds)
  {
    if |ds| == 0 then 0
    else DigitsValue(ds[..|ds| - 1]) * 10 + DigitValue(ds[|ds| - 1])
  }

  /** The decimal rendering of `n`, without leading zeros. */
  function ShowNat(n: nat): (s: string)
    ensures |s| >= 1 && AllDigits(s)
    ensures DigitsValue(s) == n
  {
    if n < 10 then [DigitChar(n)]
    else
      var s := ShowNat(n / 10) + [DigitChar(n % 10)];
      assert s[..|s| - 1] == ShowNat(n / 10);
      s
  }

  /** The decimal rendering of `n`, with a leading `-` when negative. */
  function ShowInt(n: int): string
  {
    if n < 0 then "-" + ShowNat(-n) else ShowNat(n)
  }

  /** `is_numeric`, narrowed to integers: an optional `-` and at least one digit. */
  function IsNumeric(s: string): (b: bool)
    // a numeric token starts with a digit or `-` and continues with digits only
    ensures b ==> |s| >= 1 && (IsDigit(s[0]) || s[0] == '-') && IsDigit(s[|s| - 1])
    ensures b ==> forall k | 1 <= k < |s| :: IsDigit(s[k])
    // every non-empty run of digits is numeric, with or without a leading `-`
    ensures |s| >= 1 && AllDigits(s) ==> b
    ensures |s| >= 2 && s[0] == '-' && (forall k | 1 <= k < |s| :: IsDigit(s[k])) ==> b
  {
    || (|s| >= 1 && AllDigits(s))
    || (|s| >= 2 && s[0] == '-' && AllDigits(s[1..]))
  }

  /** The longest prefix of `s` made of digits. */
  function LeadingDigits(s: string): (r: string)
    ensures AllDigits(r)
    ensures |r| <= |s| && r == s[..|r|]
    ensures |r| == |s| || !IsDigit(s[|r|])
  {
    if |s| > 0 && IsDigit(s[0]) then
      var r := [s[0]] + LeadingDigits(s[1..]);
      assert s == [s[0]] + s[1..];
      r
    else []
  }

  lemma LeadingDigitsOfDigits(s: string)
    requires AllDigits(s)
    ensures LeadingDigits(s) == s
  {
  }

  /** The `(int)` cast of a string: an optional `-` followed by the longest
      run of digits; a string without leading digits converts to 0. */
  function IntCast(s: string): (n: int)
    // only a leading `-` makes the result negative
    ensures n < 0 ==> |s| > 0 && s[0] == '-'
    // a string that does not start with a digit or `-` casts to 0
    ensures (|s| == 0 || (!IsDigit(s[0]) && s[0] != '-')) ==> n == 0
    // a run of digits is read in full
    ensures AllDigits(s) ==> n == DigitsValue(s)
  {
    if |s| > 0 && s[0] == '-' then -(DigitsValue(LeadingDigits(s[1..])) as int)
    else
      var digits := LeadingDigits(s);
      assert AllDigits(s) ==> digits == s by {
        if AllDigits(s) { LeadingDigitsOfDigits(s); }
      }
      DigitsValue(digits)
  }

  /** The `(int)` cast reads a numeric string in full. */
  lemma NumericCast(s: string)
    requires IsNumeric(s)
    ensures IntCast(s) == if s[0] == '-' then -(DigitsValue(s[1..]) as int) else DigitsValue(s)
  {
    if s[0] == '-' {
      LeadingDigitsOfDigits(s[1..]);
    } else {
      LeadingDigitsOfDigits(s);
    }
  }

  /** Rendering an integer and casting it back is the identity, and the
      rendering is accepted as numeric. */
  lemma ShowIntRoundTrip(n: int)
    ensures IsNumeric(ShowInt(n))
    ensures IntCast(ShowInt(n)) == n
  {
    var s := ShowInt(n);
    if n < 0 {
      assert s[1..] == ShowNat(-n);
      assert s[0] == '-';
    } else {
      assert !IsDigit('-');
      assert s[0] != '-';
    }
    NumericCast(s);
  }

  /** The rendering of an integer starts with a digit or `-` and ends with a
      digit, so `trim` leaves it alone. */
  lemma RenderedIntIsTrimmed(n: int)
    ensures IsTrimmed(ShowInt(n))
    ensures IsDigit(ShowInt(n)[0]) || ShowInt(n)[0] == '-'
    ensures IsDigit(ShowInt(n)[|ShowInt(n)| - 1])
  {
    var t := ShowInt(n);
    if n < 0 {
      assert t[|t| - 1] == ShowNat(-n)[|ShowNat(-n)| - 1];
    }
  }
}
