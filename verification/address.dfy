/** The script's `isAddress` check: `BigInt(str)` must not throw, and `str`
    must start with "0x" and be 42 characters long. */
module Address {
  import opened Text

  datatype Radix = Binary | Octal | Decimal | Hex

  predicate IsDigit(c: char, radix: Radix) {
    match radix
    case Binary => c == '0' || c == '1'
    case Octal => '0' <= c <= '7'
    case Decimal => '0' <= c <= '9'
    case Hex => '0' <= c <= '9' || 'a' <= c <= 'f' || 'A' <= c <= 'F'
  }

  /** One or more digits of the radix. */
  predicate IsDigits(s: string, radix: Radix) {
    |s| > 0 && forall i {:trigger IsDigit(s[i], radix)} :: 0 <= i < |s| ==> IsDigit(s[i], radix)
  }

  /** A prefix `0b`, `0o` or `0x` (either case) followed by digits of the
      matching radix. */
  predicate IsNonDecimalLiteral(t: string) {
    && |t| >= 2 && t[0] == '0'
    && match t[1]
       case 'b' => IsDigits(t[2..], Binary)
       case 'B' => IsDigits(t[2..], Binary)
       case 'o' => IsDigits(t[2..], Octal)
       case 'O' => IsDigits(t[2..], Octal)
       case 'x' => IsDigits(t[2..], Hex)
       case 'X' => IsDigits(t[2..], Hex)
       case _ => false
  }

  /** The StringIntegerLiteral grammar of StringToBigInt (section 7.1.14 of
      ECMA-262) once surrounding whitespace is removed: empty (read as 0), a
      decimal integer with an optional sign, or a non-decimal literal. Numeric
      separators are not part of this grammar. */
  predicate IsIntegerLiteral(t: string) {
    || t == ""
    || IsDigits(t, Decimal)
    || (|t| >= 1 && (t[0] == '+' || t[0] == '-') && IsDigits(t[1..], Decimal))
    || IsNonDecimalLiteral(t)
  }

  /** `BigInt(s)` returns rather than throwing a SyntaxError. */
  predicate BigIntAccepts(s: string) {
    IsIntegerLiteral(Trim(s))
  }

  /** `isAddress(s)`: BigInt accepts it, it starts with "0x" and has length 42.
      Every failure yields false; nothing escapes the `try`. */
  predicate IsAddress(s: string) {
    BigIntAccepts(s) && |s| >= 2 && s[..2] == "0x" && |s| == 42
  }

  /** The shape an Ethereum address is meant to have: "0x" followed by 40 hex
      digits of either case. */
  predicate IsHexAddress(s: string) {
    && |s| == 42 && s[0] == '0' && s[1] == 'x'
    && forall i {:trigger IsDigit(s[i], Hex)} :: 2 <= i < 42 ==> IsDigit(s[i], Hex)
  }

  /** "0x0000000000000000000000000000000000000000": "0x" and forty '0's. */
  function ZeroAddress(): (z: string)
    ensures |z| == 42 && z[..2] == "0x" && forall i :: 2 <= i < 42 ==> z[i] == '0'
  {
    seq(42, i => if i == 1 then 'x' else '0')
  }

  /** For a string without surrounding whitespace — every answer the script
      reads is trimmed — `isAddress` holds exactly for "0x" plus 40 hex digits. */
  lemma IsAddressIff(s: string)
    requires Trimmed(s)
    ensures IsAddress(s) <==> IsHexAddress(s)
  {
    IsAddressOfTrimmed(s);
    PrefixChars(s);
    if |s| == 42 && s[0] == '0' && s[1] == 'x' {
      HexLiteralIff(s);
      HexDigitsAfterPrefix(s);
    }
  }

  /** Trimming leaves a trimmed string alone, so BigInt sees it as is. */
  lemma IsAddressOfTrimmed(s: string)
    requires Trimmed(s)
    ensures IsAddress(s) <==> (IsIntegerLiteral(s) && |s| >= 2 && s[..2] == "0x" && |s| == 42)
  {
    TrimOfTrimmed(s);
  }

  lemma PrefixChars(s: string)
    ensures (|s| >= 2 && s[..2] == "0x") <==> (|s| >= 2 && s[0] == '0' && s[1] == 'x')
  {
    if |s| >= 2 && s[0] == '0' && s[1] == 'x' {
      assert s[..2] == "0x";
    }
  }

  /** A literal starting "0x" is an integer literal exactly when hex digits
      follow. */
  lemma HexLiteralIff(s: string)
    requires |s| >= 2 && s[0] == '0' && s[1] == 'x'
    ensures IsIntegerLiteral(s) <==> IsDigits(s[2..], Hex)
  {
    assert !IsDigit(s[1], Decimal);
  }

  lemma HexDigitsAfterPrefix(s: string)
    requires |s| == 42 && s[0] == '0' && s[1] == 'x'
    ensures IsDigits(s[2..], Hex) <==> IsHexAddress(s)
  {
    var d := s[2..];
    if IsDigits(d, Hex) {
      forall i | 2 <= i < 42
        ensures IsDigit(s[i], Hex)
      {
        assert s[i] == d[i - 2];
        assert IsDigit(d[i - 2], Hex);
      }
    }
    if IsHexAddress(s) {
      forall i | 0 <= i < 40
        ensures IsDigit(d[i], Hex)
      {
        assert d[i] == s[i + 2];
        assert IsDigit(s[i + 2], Hex);
      }
    }
  }

  /** A hex-shaped address has no surrounding whitespace, so the equivalence
      above applies to it. */
  lemma HexAddressIsAddress(s: string)
    requires IsHexAddress(s)
    ensures IsAddress(s)
  {
    assert IsDigit(s[41], Hex);
    IsAddressIff(s);
  }

  /** The zero address passes `isAddress`; the owner step must reject it
      separately. */
  lemma ZeroAddressIsAddress()
    ensures IsAddress(ZeroAddress())
  {
    assert IsHexAddress(ZeroAddress());
    HexAddressIsAddress(ZeroAddress());
  }

  /** Without the trimming that the prompt applies, `isAddress` is looser than
      the intended shape: BigInt ignores a trailing space, so "0x" followed by
      39 hex digits and a space has length 42 and passes. */
  lemma UntrimmedStringPasses(h: string)
    requires |h| == 39 && IsDigits(h, Hex)
    ensures IsAddress("0x" + h + " ") && !IsHexAddress("0x" + h + " ")
  {
    var s := "0x" + h + " ";
    var t := "0x" + h;
    assert s[..41] == t;
    assert !IsWhitespace(t[40]) by {
      assert t[40] == h[38];
      assert IsDigit(h[38], Hex);
    }
    assert TrimEnd(t) == t;
    assert TrimEnd(s) == t;
    assert TrimStart(s) == s;
    assert t[2..] == h;
    assert IsNonDecimalLiteral(t);
    assert !IsDigit(s[41], Hex);
  }
}
