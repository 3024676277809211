/** Python's `int(text)` on a `str` (base 10) and its inverse `str(n)`.

    `int` accepts surrounding whitespace, one optional sign, and ASCII digits
    in which single underscores may separate two digits (`"1_000"`). Anything
    else raises `ValueError`. The whitespace `int` skips around an ASCII
    literal is CPython's `Py_ISSPACE` set, which is smaller than the set
    `str.strip` removes. Non-ASCII Unicode digits are not modelled.
 */
module Numbers {
  import opened Results
  import opened Text

  /** `ValueError: invalid literal for int() with base 10: <literal>`. */
  datatype ValueError = ValueError(literal: string)

  predicate IsDigit(c: char) {
    '0' <= c <= '9'
  }

  function DigitValue(c: char): (d: nat)
    requires IsDigit(c)
    ensures d < 10
  {
    c as int - '0' as int
  }

  function DigitChar(d: nat): (c: char)
    requires d < 10
    ensures IsDigit(c) && DigitValue(c) == d
  {
    (d + '0' as int) as char
  }

  /** Every character is a digit or an underscore. */
  predicate DigitsOrUnderscores(s: string) {
    forall k :: 0 <= k < |s| ==> IsDigit(s[k]) || s[k] == '_'
  }

  /** The digits body `int` accepts: digits and underscores, beginning and
      ending with a digit, with no two underscores in a row (so every
      underscore sits between two digits). */
  predicate DigitGroups(s: string) {
    && |s| > 0
    && IsDigit(s[0]) && IsDigit(s[|s| - 1])
    && DigitsOrUnderscores(s)
    && (forall i, j :: 0 <= i < |s| && i < j <= |s| && j == i + 2 ==> s[i..j] != "__")
  }

  /** The value of a digit string, most significant digit first, with
      underscores skipped. */
  function GroupsValue(s: string): nat
    requires DigitsOrUnderscores(s)
    decreases |s|
  {
    if |s| == 0 then 0
    else if s[|s| - 1] == '_' then GroupsValue(s[..|s| - 1])
    else 10 * GroupsValue(s[..|s| - 1]) + DigitValue(s[|s| - 1])
  }

  /** The literal grammar `int` accepts once whitespace is stripped:
      an optional sign followed by digit groups. */
  function ParseLiteral(t: string): Option<int>
  {
    var negative := |t| > 0 && t[0] == '-';
    var body := if |t| > 0 && (t[0] == '-' || t[0] == '+') then t[1..] else t;
    if DigitGroups(body) then
      var v: int := GroupsValue(body);
      Some(if negative then -v else v)
    else
      None
  }

  /** A character that can occur in a literal `int` accepts. */
  predicate LiteralChar(c: char) {
    IsDigit(c) || c == '_' || c == '+' || c == '-'
  }

  /** Everything the literal grammar accepts is made of literal characters. */
  lemma LiteralChars(t: string)
    requires ParseLiteral(t).Some?
    ensures forall i :: 0 <= i < |t| ==> LiteralChar(t[i])
  {
    var signed := |t| > 0 && (t[0] == '-' || t[0] == '+');
    var body := if signed then t[1..] else t;
    assert DigitsOrUnderscores(body);
    forall i | 0 <= i < |t| ensures LiteralChar(t[i]) {
      if signed && i > 0 {
        assert t[i] == body[i - 1];
      } else if !signed {
        assert t[i] == body[i];
      }
    }
  }

  /** CPython's `Py_ISSPACE`: the whitespace `int` skips around an ASCII
      literal, namely space, TAB, LF, VT, FF and CR. Unlike `str.isspace` it
      leaves out the separators FS, GS, RS and US (`\x1c`–`\x1f`). */
  predicate IsIntSpace(c: char) {
    c == ' ' || '\t' <= c <= '\r'
  }

  predicate AllIntSpace(s: string) {
    forall k :: 0 <= k < |s| ==> IsIntSpace(s[k])
  }

  /** `s` without its leading run of `Py_ISSPACE` characters. */
  function SkipLeading(s: string): (r: string)
    ensures |r| <= |s| && r == s[|s| - |r|..]
    ensures AllIntSpace(s[..|s| - |r|])
    ensures |r| == 0 || !IsIntSpace(r[0])
  {
    if |s| > 0 && IsIntSpace(s[0]) then SkipLeading(s[1..]) else s
  }

  /** `s` without its trailing run of `Py_ISSPACE` characters. */
  function SkipTrailing(s: string): (r: string)
    ensures |r| <= |s| && r == s[..|r|]
    ensures AllIntSpace(s[|r|..])
    ensures |r| == 0 || !IsIntSpace(r[|r| - 1])
  {
    if |s| > 0 && IsIntSpace(s[|s| - 1]) then SkipTrailing(s[..|s| - 1]) else s
  }

  /** The text `int` reads as its literal: the argument without the
      `Py_ISSPACE` runs at either end. */
  function LiteralText(text: string): (r: string)
    ensures |r| == 0 || (!IsIntSpace(r[0]) && !IsIntSpace(r[|r| - 1]))
  {
    SkipTrailing(SkipLeading(text))
  }

  /** The literal text is what remains between a `Py_ISSPACE` prefix and a
      `Py_ISSPACE` suffix. */
  lemma LiteralDecomposes(text: string) returns (pre: string, post: string)
    ensures AllIntSpace(pre) && AllIntSpace(post)
    ensures text == pre + LiteralText(text) + post
  {
    var l := SkipLeading(text);
    pre := SkipLeadingRemoves(text);
    post := SkipTrailingRemoves(l);
    assert text == pre + LiteralText(text) + post by {
      assert text == pre + (SkipTrailing(l) + post);
    }
  }

  lemma SkipLeadingRemoves(s: string) returns (pre: string)
    ensures AllIntSpace(pre) && s == pre + SkipLeading(s)
  {
    var l := SkipLeading(s);
    var k := |s| - |l|;
    pre := s[..k];
    assert s == pre + l by {
      assert l == s[k..];
    }
  }

  lemma SkipTrailingRemoves(s: string) returns (post: string)
    ensures AllIntSpace(post) && s == SkipTrailing(s) + post
  {
    var r := SkipTrailing(s);
    post := s[|r|..];
    assert s == r + post by {
      assert r == s[..|r|];
    }
  }

  lemma AllIntSpaceConcat(a: string, b: string)
    requires AllIntSpace(a) && AllIntSpace(b)
    ensures AllIntSpace(a + b)
  {
    forall k | 0 <= k < |a + b| ensures IsIntSpace((a + b)[k]) {
      if k < |a| { assert (a + b)[k] == a[k]; } else { assert (a + b)[k] == b[k - |a|]; }
    }
  }

  /** `SkipLeading` drops a `Py_ISSPACE` prefix up to the first other character. */
  lemma {:induction false} SkipLeadingPrefix(pre: string, rest: string)
    requires AllIntSpace(pre)
    requires |rest| > 0 && !IsIntSpace(rest[0])
    ensures SkipLeading(pre + rest) == rest
    decreases |pre|
  {
    if |pre| == 0 {
      assert pre + rest == rest;
    } else {
      assert (pre + rest)[1..] == pre[1..] + rest;
      assert AllIntSpace(pre[1..]) by {
        forall k | 0 <= k < |pre[1..]| ensures IsIntSpace(pre[1..][k]) {
          assert pre[1..][k] == pre[k + 1];
        }
      }
      SkipLeadingPrefix(pre[1..], rest);
    }
  }

  /** `SkipTrailing` drops a `Py_ISSPACE` suffix back to the last other character. */
  lemma {:induction false} SkipTrailingSuffix(rest: string, post: string)
    requires AllIntSpace(post)
    requires |rest| > 0 && !IsIntSpace(rest[|rest| - 1])
    ensures SkipTrailing(rest + post) == rest
    decreases |post|
  {
    if |post| == 0 {
      assert rest + post == rest;
    } else {
      var p' := post[..|post| - 1];
      assert (rest + post)[..|rest + post| - 1] == rest + p';
      assert AllIntSpace(p') by {
        forall k | 0 <= k < |p'| ensures IsIntSpace(p'[k]) {
          assert p'[k] == post[k];
        }
      }
      SkipTrailingSuffix(rest, p');
    }
  }

  /** A `Py_ISSPACE`-free literal surrounded by `Py_ISSPACE` padding is
      read as exactly that literal. */
  lemma LiteralUnique(pre: string, m: string, post: string)
    requires AllIntSpace(pre) && AllIntSpace(post)
    requires |m| > 0 && !IsIntSpace(m[0]) && !IsIntSpace(m[|m| - 1])
    ensures LiteralText(pre + m + post) == m
  {
    var s := pre + m + post;
    assert s == pre + (m + post);
    assert (m + post)[0] == m[0];
    SkipLeadingPrefix(pre, m + post);
    SkipTrailingSuffix(m, post);
  }

  /** Python's `int(text)`: the literal grammar applied to the text between
      the `Py_ISSPACE` runs at either end. */
  function ParseInt(text: string): (r: Result<int, ValueError>)
    ensures r.Err? ==> r.error == ValueError(text)
    ensures AllIntSpace(text) ==> r.Err?
  {
    match ParseLiteral(LiteralText(text))
    case Some(v) => Ok(v)
    case None => Err(ValueError(text))
  }

  /** `int` rejects every text holding a character that is neither
      `Py_ISSPACE` nor part of a literal: `int("pw@host")`, `int("1]")`, and
      also `int("\x1c5")`, since `int` does not skip the separators
      `str.strip` removes. */
  lemma ParseRejectsForeignChar(text: string, k: int)
    requires 0 <= k < |text| && !IsIntSpace(text[k]) && !LiteralChar(text[k])
    ensures ParseInt(text) == Err(ValueError(text))
  {
    var lit := LiteralText(text);
    var pre, post := LiteralDecomposes(text);
    if ParseLiteral(lit).Some? {
      LiteralChars(lit);
      assert false;
    }
  }

  /** `str(n)` for a natural number: its shortest decimal digits. */
  function NatToDecimal(n: nat): (s: string)
    ensures |s| > 0
    ensures forall k :: 0 <= k < |s| ==> IsDigit(s[k])
    ensures |s| > 1 ==> s[0] != '0'
    decreases n
  {
    if n < 10 then [DigitChar(n)] else NatToDecimal(n / 10) + [DigitChar(n % 10)]
  }

  /** `str(n)` for an integer. */
  function FormatInt(n: int): (s: string)
    ensures |s| > 0
  {
    if n < 0 then "-" + NatToDecimal(-n) else NatToDecimal(n)
  }

  /** Reading back the digits of `str(n)` gives `n`. */
  lemma {:induction false} DigitsValueOfDecimal(n: nat)
    ensures GroupsValue(NatToDecimal(n)) == n
    decreases n
  {
    var s := NatToDecimal(n);
    if n >= 10 {
      DigitsValueOfDecimal(n / 10);
      assert s[..|s| - 1] == NatToDecimal(n / 10);
    }
  }

  /** The literal grammar reads back `str(n)`. */
  lemma ParseLiteralFormat(n: int)
    ensures ParseLiteral(FormatInt(n)) == Some(n)
  {
    var s := FormatInt(n);
    var digits := NatToDecimal(if n < 0 then -n else n);
    assert DigitGroups(digits) by {
      forall i, j | 0 <= i < |digits| && i < j <= |digits| && j == i + 2 ensures digits[i..j] != "__" {
        assert digits[i..j][0] == digits[i];
      }
    }
    DigitsValueOfDecimal(if n < 0 then -n else n);
    if n < 0 {
      assert s[0] == '-' && s[1..] == digits;
    } else {
      assert s == digits && IsDigit(s[0]);
    }
  }

  /** `int(str(n)) == n` for every integer. */
  lemma ParseFormat(n: int)
    ensures ParseInt(FormatInt(n)) == Ok(n)
  {
    var s := FormatInt(n);
    ParseLiteralFormat(n);
    assert !IsIntSpace(s[0]) && !IsIntSpace(s[|s| - 1]) by {
      var d := NatToDecimal(if n < 0 then -n else n);
      assert IsDigit(d[|d| - 1]);
      assert s[|s| - 1] == d[|d| - 1];
    }
    assert [] + s + [] == s;
    LiteralUnique([], s, []);
  }

  /** `int` ignores `Py_ISSPACE` whitespace around the literal. */
  lemma ParseIgnoresPadding(pre: string, text: string, post: string)
    requires AllIntSpace(pre) && AllIntSpace(post)
    ensures ParseInt(pre + text + post).Ok? == ParseInt(text).Ok?
    ensures ParseInt(text).Ok? ==> ParseInt(pre + text + post) == ParseInt(text)
  {
    LiteralPadding(pre, text, post);
  }

  /** `Py_ISSPACE` padding does not change the literal `int` reads. */
  lemma LiteralPadding(pre: string, text: string, post: string)
    requires AllIntSpace(pre) && AllIntSpace(post)
    ensures LiteralText(pre + text + post) == LiteralText(text)
  {
    var m := LiteralText(text);
    var p1, p2 := LiteralDecomposes(text);
    AllIntSpaceConcat(pre, p1);
    AllIntSpaceConcat(p2, post);
    Regroup(pre, p1, m, p2, post);
    if |m| > 0 {
      LiteralUnique(pre + p1, m, p2 + post);
    } else {
      assert pre + text + post == (pre + p1) + (p2 + post);
      AllIntSpaceConcat(pre + p1, p2 + post);
      LiteralOfBlank(pre + text + post);
    }
  }

  /** A text of `Py_ISSPACE` characters only has an empty literal. */
  lemma LiteralOfBlank(s: string)
    requires AllIntSpace(s)
    ensures LiteralText(s) == []
  {
    var pre, post := LiteralDecomposes(s);
  }

  /** `int` does not skip the separator `\x1c` that `str.strip` removes:
      `int("\x1c" + str(n))` raises. */
  lemma ParseKeepsSeparators(n: int)
    ensures ParseInt(['\U{1C}'] + FormatInt(n)).Err?
  {
    ParseRejectsForeignChar(['\U{1C}'] + FormatInt(n), 0);
  }
}
