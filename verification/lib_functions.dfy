/** The station's string helpers (app/lib/functions.py): quote detection,
    the "has content" test used by configuration and URL checks, and the
    random string generator. */
module LibFunctions {
  import opened Results
  import opened Text

  /** `is_quoted(s)`: starts and ends with `"`, or starts and ends with `'`. */
  function IsQuoted(s: string): (r: bool)
    ensures r <==> |s| > 0 && ((s[0] == '"' && s[|s| - 1] == '"') || (s[0] == '\'' && s[|s| - 1] == '\''))
  {
    (StartsWith(s, "\"") && EndsWith(s, "\"")) || (StartsWith(s, "'") && EndsWith(s, "'"))
  }

  /** `string_has_content(s)`: `s` is not None and `s.strip() != ''`. */
  function StringHasContent(s: Option<string>): (r: bool)
    ensures r <==> s.Some? && exists k :: 0 <= k < |s.value| && !IsSpace(s.value[k])
  {
    s.Some? && Strip(s.value) != ""
  }

  /** The alphabet `generate_random_string` draws from:
      `string.ascii_letters + string.punctuation + string.digits`. */
  const Chars: string := AsciiLetters + Punctuation + Digits

  /** `generate_random_string(length)`: `length` characters, each chosen from
      `Chars`. The choice is left open (Python's `random.choice`); a negative
      `length` gives an empty `range` and so the empty string. */
  method GenerateRandomString(length: int) returns (s: string)
    ensures |s| == if length < 0 then 0 else length
    ensures forall k :: 0 <= k < |s| ==> s[k] in Chars
  {
    var n := if length < 0 then 0 else length;
    s := "";
    var i := 0;
    assert 'a' in Chars by { assert Chars[0] == AsciiLetters[0] == AsciiLowercase[0]; }
    while i < n
      invariant i <= n
      invariant |s| == i
      invariant forall k :: 0 <= k < |s| ==> s[k] in Chars
    {
      var c :| c in Chars;
      s := s + [c];
      i := i + 1;
    }
  }

  /** Every character of the alphabet is printable, non-blank ASCII. */
  lemma CharsPrintable()
    ensures |Chars| == 94
    ensures forall k :: 0 <= k < |Chars| ==> '!' <= Chars[k] <= '~'
  {
    assert forall k :: 0 <= k < |AsciiLowercase| ==> '!' <= AsciiLowercase[k] <= '~';
    assert forall k :: 0 <= k < |AsciiUppercase| ==> '!' <= AsciiUppercase[k] <= '~';
    assert forall k :: 0 <= k < |AsciiLetters| ==> '!' <= AsciiLetters[k] <= '~' by {
      forall k | 0 <= k < |AsciiLetters| ensures '!' <= AsciiLetters[k] <= '~' {
        if k < 26 { assert AsciiLetters[k] == AsciiLowercase[k]; }
        else { assert AsciiLetters[k] == AsciiUppercase[k - 26]; }
      }
    }
    assert forall k :: 0 <= k < |Punctuation| ==> '!' <= Punctuation[k] <= '~';
    assert forall k :: 0 <= k < |Digits| ==> '!' <= Digits[k] <= '~';
    forall k | 0 <= k < |Chars| ensures '!' <= Chars[k] <= '~' {
      if k < |AsciiLetters| {
        assert Chars[k] == AsciiLetters[k];
      } else if k < |AsciiLetters| + |Punctuation| {
        assert Chars[k] == Punctuation[k - |AsciiLetters|];
      } else {
        assert Chars[k] == Digits[k - |AsciiLetters| - |Punctuation|];
      }
    }
  }

  /** The empty string is neither quoted nor contentful. */
  lemma EmptyIsNeither()
    ensures !IsQuoted("")
    ensures !StringHasContent(Some(""))
    ensures !StringHasContent(None)
  {
  }

  /** A lone quote character is both the first and the last character,
      so it counts as quoted; mismatched quotes do not. */
  lemma QuoteEdgeCases()
    ensures IsQuoted("\"") && IsQuoted("'")
    ensures !IsQuoted("\"x'") && !IsQuoted("'x\"")
    ensures IsQuoted("\"x\"") && IsQuoted("'x'")
  {
  }

  /** Whitespace never matters to `string_has_content`: the predicate is
      invariant under `strip`. */
  lemma HasContentStripInvariant(s: string)
    ensures StringHasContent(Some(Strip(s))) == StringHasContent(Some(s))
  {
    StripIdempotent(s);
  }

  /** A generated string of positive length has content: no alphabet
      character is whitespace. */
  lemma GeneratedHasContent(s: string)
    requires |s| > 0
    requires forall k :: 0 <= k < |s| ==> s[k] in Chars
    ensures StringHasContent(Some(s))
  {
    CharsPrintable();
    assert s[0] in Chars;
    var j :| 0 <= j < |Chars| && Chars[j] == s[0];
    assert !IsSpace(s[0]);
  }
}
