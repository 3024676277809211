/** The second copy of the string helpers (app/functions.py). Its text is
    the same as app/lib/functions.py; it is written out again here so that
    the two can be compared, and `CopiesAgree` shows that they coincide. */
module AppFunctions {
  import opened Results
  import opened Text
  import LibFunctions

  /** `is_quoted(s)`. */
  function IsQuoted(s: string): (r: bool)
    ensures r <==> |s| > 0 && (s[0] == s[|s| - 1] == '"' || s[0] == s[|s| - 1] == '\'')
  {
    (StartsWith(s, "\"") && EndsWith(s, "\"")) || (StartsWith(s, "'") && EndsWith(s, "'"))
  }

  /** `string_has_content(s)`. */
  function StringHasContent(s: Option<string>): (r: bool)
    ensures r <==> s.Some? && !AllSpace(s.value)
  {
    s.Some? && Strip(s.value) != ""
  }

  /** `string.ascii_letters + string.punctuation + string.digits`. */
  const Chars: string := AsciiLetters + Punctuation + Digits

  /** `generate_random_string(length)`. */
  method GenerateRandomString(length: int) returns (s: string)
    ensures |s| == if length < 0 then 0 else length
    ensures forall k :: 0 <= k < |s| ==> s[k] in Chars
  {
    var n := if length < 0 then 0 else length;
    s := "";
    var i := 0;
    assert 'a' in Chars by { assert Chars[0] == AsciiLetters[0] == AsciiLowercase[0]; }
    while i < n
      invariant i <= n
      invariant |s| == i
      invariant forall k :: 0 <= k < |s| ==> s[k] in Chars
    {
      var c :| c in Chars;
      s := s + [c];
      i := i + 1;
    }
  }

  /** The two copies of the helpers agree on every input, and the two random
      generators draw from the same alphabet. */
  lemma CopiesAgree()
    ensures forall s :: IsQuoted(s) == LibFunctions.IsQuoted(s)
    ensures forall s :: StringHasContent(s) == LibFunctions.StringHasContent(s)
    ensures Chars == LibFunctions.Chars
  {
  }
}
