/**
 * What a single command-line token looks like: the option terminator, a
 * long option `--name[=value]`, or a cluster of short options `-abc`.
 * Strings are sequences of Unicode code points.
 */
module Lexical {

  const OptionTerminator: string := "--"
  const LongOptionPrefix: string := "--"
  const ShortOptionPrefix: string := "-"
  const InvalidShortOptionChars: string := " -"
  const InvalidLongOptionChars: string := " ="

  /** Index of the first occurrence of `c` in `s`, or `|s|` when there is none. */
  function IndexOf(s: string, c: char): (k: nat)
    ensures k <= |s|
    ensures forall j :: 0 <= j < k ==> s[j] != c
    ensures k < |s| ==> s[k] == c
  {
    if s == [] then 0 else if s[0] == c then 0 else 1 + IndexOf(s[1..], c)
  }

  /** Exactly "--": the end of option processing. Neither a long option nor a cluster. */
  function IsOptionTerminator(s: string): (r: bool)
    ensures r <==> |s| == 2 && s[0] == '-' && s[1] == '-'
    ensures r ==> !IsLongOptionPrefix(s) && !IsShortOptionPrefix(s)
  {
    s == OptionTerminator
  }

  /** The prefix "--" followed by at least one character that is not '-'. */
  function IsLongOptionPrefix(s: string): (r: bool)
    ensures r <==> |s| >= 3 && s[0] == '-' && s[1] == '-' && s[2] != '-'
  {
    var len := |LongOptionPrefix|;
    assert |s| >= 3 ==> s[..2] == [s[0], s[1]] && s[2..3] == [s[2]];
    |s| >= 1 + len && s[..len] == LongOptionPrefix && s[len..len + 1] != "-"
  }

  /** Everything after the "--" prefix of a long option. */
  function GetLongOption(s: string): (body: string)
    requires IsLongOptionPrefix(s)
    ensures LongOptionPrefix + body == s
    ensures |body| >= 1 && body[0] != '-'
  {
    s[|LongOptionPrefix|..]
  }

  /** The option name: the body up to, not including, its first '='. */
  function GetLongOptionName(s: string): (name: string)
    requires IsLongOptionPrefix(s)
    ensures name <= GetLongOption(s)
    ensures '=' !in name
    ensures |name| < |GetLongOption(s)| ==> GetLongOption(s)[|name|] == '='
  {
    var body := GetLongOption(s);
    body[..IndexOf(body, '=')]
  }

  /**
   * Whether the body holds an '=' from its third character on. The source
   * slices the body at index 2, which panics on a one-character body, so the
   * body must have at least two characters.
   */
  function IsLongOptionEqualSign(s: string): (r: bool)
    requires IsLongOptionPrefix(s) && |GetLongOption(s)| >= 2
    ensures r <==> exists k :: 2 <= k < |GetLongOption(s)| && GetLongOption(s)[k] == '='
  {
    assert forall k :: 2 <= k < |GetLongOption(s)| ==> GetLongOption(s)[2..][k - 2] == GetLongOption(s)[k];
    '=' in GetLongOption(s)[2..]
  }

  /** Everything after the first '=' of the body, further '=' included; "" without one. */
  function GetLongOptionEqualValue(s: string): (value: string)
    requires IsLongOptionPrefix(s)
    ensures '=' in GetLongOption(s) ==> GetLongOption(s) == GetLongOptionName(s) + "=" + value
    ensures '=' !in GetLongOption(s) ==> value == "" && GetLongOptionName(s) == GetLongOption(s)
  {
    var body := GetLongOption(s);
    var k := IndexOf(body, '=');
    if k == |body| then
      assert body[..k] == body;
      ""
    else
      assert body == body[..k] + "=" + body[k + 1..];
      body[k + 1..]
  }

  /** A long name must not start with '-' and must contain no space and no '='. */
  function IsValidLongOptionName(s: string): (r: bool)
    ensures r <==> (s == [] || s[0] != '-') && ' ' !in s && '=' !in s
  {
    assert ' ' in InvalidLongOptionChars && '=' in InvalidLongOptionChars;
    !(|s| > 0 && s[0] == '-') && forall c :: c in InvalidLongOptionChars ==> c !in s
  }

  /** A short name is exactly one character, neither space nor '-'. */
  function IsValidShortOptionName(s: string): (r: bool)
    ensures r <==> |s| == 1 && s[0] != ' ' && s[0] != '-'
  {
    assert ' ' in InvalidShortOptionChars && '-' in InvalidShortOptionChars;
    assert |s| == 1 ==> forall c :: c in s ==> c == s[0];
    |s| == 1 && forall c :: c in InvalidShortOptionChars ==> c !in s
  }

  /** The prefix "-" followed by a character that is a valid short name. */
  function IsShortOptionPrefix(s: string): (r: bool)
    ensures r <==> |s| >= 2 && s[0] == '-' && s[1] != ' ' && s[1] != '-'
  {
    var len := |ShortOptionPrefix|;
    assert |s| >= 2 ==> s[..1] == [s[0]] && s[1..2] == [s[1]];
    |s| >= 1 + len && s[..len] == ShortOptionPrefix && IsValidShortOptionName(s[len..len + 1])
  }

  /** The cluster of short option characters after the leading "-". */
  function GetShortOptionSeries(s: string): (series: string)
    requires |s| >= |ShortOptionPrefix|
    ensures |series| == |s| - 1
    ensures IsShortOptionPrefix(s) ==> ShortOptionPrefix + series == s && |series| >= 1
  {
    s[|ShortOptionPrefix|..]
  }

  // Properties of the classification

  /** A token is never both a long option and a short option cluster. */
  lemma PrefixesExclusive(s: string)
    ensures !(IsLongOptionPrefix(s) && IsShortOptionPrefix(s))
  {
  }

  /** "-", "--" and anything starting "---" are neither long nor short options. */
  lemma DashesAreNotOptions(s: string)
    requires s == "-" || s == "--" || (|s| >= 3 && s[..3] == "---")
    ensures !IsLongOptionPrefix(s) && !IsShortOptionPrefix(s)
  {
    if |s| >= 3 {
      assert s[2] == s[..3][2];
    }
  }

  /**
   * Once the name has at least two characters, the source's test on the
   * body from index 2 on is the same as "the body holds an '='".
   */
  lemma EqualSignAfterLongName(s: string)
    requires IsLongOptionPrefix(s) && |GetLongOptionName(s)| >= 2
    ensures IsLongOptionEqualSign(s) <==> '=' in GetLongOption(s)
  {
    var body, name := GetLongOption(s), GetLongOptionName(s);
    if '=' in body {
      var k := |name|;
      assert body == name + "=" + GetLongOptionEqualValue(s);
      assert body[k] == '=';
      assert body[2..][k - 2] == '=';
    }
  }
}
