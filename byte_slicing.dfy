/**
 * Two tests of `parse` as written over UTF-8 bytes. The long-option test
 * compares the third character by slicing bytes 2..3, and slicing a string
 * off a character boundary panics. The short-name test asks for a length of
 * one byte, so no multi-byte character is a valid short name. The rest of
 * the model reads code points (`Lexical.IsLongOptionPrefix`,
 * `Lexical.IsValidShortOptionName`), which is what the non-ASCII command
 * lines and names of the test suite expect.
 */
module ByteSlicing {
  import opened Lexical
  import opened Registry

  newtype byte = x: int | 0 <= x < 256

  /** A predicate that either answers or panics. */
  datatype Outcome = Answer(b: bool) | Panic

  const Dash: byte := 0x2D

  /** Byte `i` of a UTF-8 string starts a character, or is the end of the string. */
  predicate IsCharBoundary(s: seq<byte>, i: nat)
    requires i <= |s|
  {
    i == |s| || !(0x80 <= s[i] < 0xC0)
  }

  /** `is_long_option_prefix` as written: at least three bytes, "--", then the slice of bytes 2..3 is not "-". */
  function IsLongOptionPrefixAsWritten(s: seq<byte>): (r: Outcome)
    ensures r.Panic? ==> |s| >= 3 && s[0] == Dash && s[1] == Dash
    ensures r == Answer(true) ==> |s| >= 3 && s[..2] == [Dash, Dash] && s[2] != Dash
  {
    if |s| < 3 then Answer(false)
    else if s[0] != Dash || s[1] != Dash then Answer(false)
    else if !IsCharBoundary(s, 2) || !IsCharBoundary(s, 3) then Panic
    else Answer(s[2] != Dash)
  }

  /** `s` is the one-byte encoding of the ASCII string `t`. */
  ghost predicate AsciiEncodes(s: seq<byte>, t: string) {
    |s| == |t| && forall i :: 0 <= i < |s| ==> s[i] < 0x80 && s[i] as int == t[i] as int
  }

  /** On ASCII tokens the byte test answers exactly as the code point test. */
  lemma AsWrittenAgreesOnAscii(s: seq<byte>, t: string)
    requires AsciiEncodes(s, t)
    ensures IsLongOptionPrefixAsWritten(s) == Answer(IsLongOptionPrefix(t))
  {
    if |s| >= 3 {
      assert s[0] as int == t[0] as int && s[1] as int == t[1] as int && s[2] as int == t[2] as int;
      assert (s[0] == Dash) == (t[0] == '-');
      assert (s[1] == Dash) == (t[1] == '-');
      assert (s[2] == Dash) == (t[2] == '-');
    }
  }

  /** "--äiti=ööö" in UTF-8: the 'ä' takes bytes 2 and 3. */
  const AccentedToken: seq<byte> :=
    [0x2D, 0x2D, 0xC3, 0xA4, 0x69, 0x74, 0x69, 0x3D, 0xC3, 0xB6, 0xC3, 0xB6, 0xC3, 0xB6]

  /** The first token of the non-ASCII test panics as written, and is a long option by code points. */
  lemma AccentedLongOptionPanics()
    ensures IsLongOptionPrefixAsWritten(AccentedToken) == Panic
    ensures IsLongOptionPrefix("--äiti=ööö")
  {
    assert !IsCharBoundary(AccentedToken, 3);
  }

  const Space: byte := 0x20

  /** `is_valid_short_option_name` as written: one byte, neither space nor '-'. */
  function IsValidShortOptionNameAsWritten(s: seq<byte>): (r: bool)
    ensures r ==> |s| == 1 && s[0] != Dash
  {
    |s| == 1 && s[0] != Space && s[0] != Dash
  }

  /** On ASCII names the byte-length test answers exactly as the code point test. */
  lemma ShortNameAsWrittenAgreesOnAscii(s: seq<byte>, t: string)
    requires AsciiEncodes(s, t)
    ensures IsValidShortOptionNameAsWritten(s) == IsValidShortOptionName(t)
  {
    if |s| == 1 {
      assert s[0] as int == t[0] as int;
      assert (s[0] == Dash) == (t[0] == '-');
      assert (s[0] == Space) == (t[0] == ' ');
    }
  }

  /** "€" in UTF-8: one character, three bytes. */
  const EuroName: seq<byte> := [0xE2, 0x82, 0xAC]

  /**
   * The byte-length test rejects "€", which the test suite expects to be a
   * valid short name; so `option` as written panics on the declaration of
   * "€", which the code point test accepts.
   */
  lemma EuroShortNameRejected()
    ensures !IsValidShortOptionNameAsWritten(EuroName)
    ensures IsValidShortOptionName("€") && IsValidShortOptionName("ä")
    ensures CanDeclare([], "€uro", "€")
  {
  }
}
