/** The parts of Python's `str` type and `string` module that the station's
    helpers rely on: `isspace`, `strip`, `startswith`, `endswith`, `split`,
    and the character-class constants of the `string` module.
 */
module Text {

  /** Python's `str.isspace()` on the ASCII range: space, the five control
      characters TAB, LF, VT, FF, CR (9..13) and the four separators
      FS, GS, RS, US (28..31). Non-ASCII Unicode whitespace is not modelled. */
  predicate IsSpace(c: char) {
    c == ' ' || ('\t' <= c <= '\r') || ('\U{1C}' <= c <= '\U{1F}')
  }

  /** Every character of `s` is whitespace (vacuously true of ""). */
  predicate AllSpace(s: string) {
    forall k :: 0 <= k < |s| ==> IsSpace(s[k])
  }

  /** `s` is empty or begins and ends with a non-whitespace character:
      the shape of everything `str.strip()` returns. */
  predicate Trimmed(s: string) {
    |s| == 0 || (!IsSpace(s[0]) && !IsSpace(s[|s| - 1]))
  }

  /** Python's `str.lstrip()` with no argument. */
  function TrimLeft(s: string): (r: string)
    ensures |r| <= |s| && r == s[|s| - |r|..]
    ensures AllSpace(s[..|s| - |r|])
    ensures |r| == 0 || !IsSpace(r[0])
  {
    if |s| > 0 && IsSpace(s[0]) then TrimLeft(s[1..]) else s
  }

  /** Python's `str.rstrip()` with no argument. */
  function TrimRight(s: string): (r: string)
    ensures |r| <= |s| && r == s[..|r|]
    ensures AllSpace(s[|r|..])
    ensures |r| == 0 || !IsSpace(r[|r| - 1])
  {
    if |s| > 0 && IsSpace(s[|s| - 1]) then TrimRight(s[..|s| - 1]) else s
  }

  /** Python's `str.strip()` with no argument. */
  function Strip(s: string): (r: string)
    ensures |r| <= |s|
    ensures Trimmed(r)
    ensures |r| == 0 <==> AllSpace(s)
  {
    var l := TrimLeft(s);
    var r := TrimRight(l);
    assert |r| == 0 ==> AllSpace(s) by {
      if |r| == 0 {
        assert s == s[..|s| - |l|] + l;
        assert l == l[|r|..];
      }
    }
    r
  }

  /** Stripping removes exactly a whitespace prefix and a whitespace suffix. */
  lemma StripDecomposes(s: string) returns (pre: string, post: string)
    ensures AllSpace(pre) && AllSpace(post)
    ensures s == pre + Strip(s) + post
  {
    var l := TrimLeft(s);
    pre := TrimLeftRemoves(s);
    post := TrimRightRemoves(l);
    assert Strip(s) == TrimRight(l);
    assert s == pre + Strip(s) + post by {
      assert s == pre + (TrimRight(l) + post);
    }
  }

  /** `TrimLeft` removes a whitespace prefix and nothing else. */
  lemma TrimLeftRemoves(s: string) returns (pre: string)
    ensures AllSpace(pre) && s == pre + TrimLeft(s)
  {
    var l := TrimLeft(s);
    var k := |s| - |l|;
    pre := s[..k];
    assert s == pre + l by {
      assert l == s[k..];
    }
  }

  /** `TrimRight` removes a whitespace suffix and nothing else. */
  lemma TrimRightRemoves(s: string) returns (post: string)
    ensures AllSpace(post) && s == TrimRight(s) + post
  {
    var r := TrimRight(s);
    post := s[|r|..];
    assert s == r + post by {
      assert r == s[..|r|];
    }
  }

  /** `TrimLeft` drops a whitespace prefix up to the first non-space character. */
  lemma {:induction false} TrimLeftPrefix(pre: string, rest: string)
    requires AllSpace(pre)
    requires |rest| > 0 && !IsSpace(rest[0])
    ensures TrimLeft(pre + rest) == rest
    decreases |pre|
  {
    if |pre| == 0 {
      assert pre + rest == rest;
    } else {
      assert (pre + rest)[1..] == pre[1..] + rest;
      assert AllSpace(pre[1..]) by {
        forall k | 0 <= k < |pre[1..]| ensures IsSpace(pre[1..][k]) {
          assert pre[1..][k] == pre[k + 1];
        }
      }
      TrimLeftPrefix(pre[1..], rest);
    }
  }

  /** `TrimRight` drops a whitespace suffix back to the last non-space character. */
  lemma {:induction false} TrimRightSuffix(rest: string, post: string)
    requires AllSpace(post)
    requires |rest| > 0 && !IsSpace(rest[|rest| - 1])
    ensures TrimRight(rest + post) == rest
    decreases |post|
  {
    if |post| == 0 {
      assert rest + post == rest;
    } else {
      var p' := post[..|post| - 1];
      assert (rest + post)[..|rest + post| - 1] == rest + p';
      assert AllSpace(p') by {
        forall k | 0 <= k < |p'| ensures IsSpace(p'[k]) {
          assert p'[k] == post[k];
        }
      }
      TrimRightSuffix(rest, p');
    }
  }

  /** Independent characterisation of `strip`: whatever is left after peeling
      whitespace off both ends, as long as it is itself trimmed, is the result. */
  lemma StripUnique(pre: string, m: string, post: string)
    requires AllSpace(pre) && AllSpace(post) && Trimmed(m)
    ensures Strip(pre + m + post) == m
  {
    var s := pre + m + post;
    if |m| == 0 {
      assert s == pre + post;
      assert AllSpace(s) by {
        forall k | 0 <= k < |s| ensures IsSpace(s[k]) {
          if k < |pre| { assert s[k] == pre[k]; } else { assert s[k] == post[k - |pre|]; }
        }
      }
    } else {
      assert s == pre + (m + post);
      assert (m + post)[0] == m[0];
      TrimLeftPrefix(pre, m + post);
      TrimRightSuffix(m, post);
    }
  }

  /** Whitespace added around a string does not change what `strip` keeps. */
  lemma StripPadding(pre: string, s: string, post: string)
    requires AllSpace(pre) && AllSpace(post)
    ensures Strip(pre + s + post) == Strip(s)
  {
    var m := Strip(s);
    var p1, p2 := StripDecomposes(s);
    AllSpaceConcat(pre, p1);
    AllSpaceConcat(p2, post);
    Regroup(pre, p1, m, p2, post);
    StripUnique(pre + p1, m, p2 + post);
  }

  lemma Regroup<T>(a: seq<T>, b: seq<T>, c: seq<T>, d: seq<T>, e: seq<T>)
    ensures a + (b + c + d) + e == (a + b) + c + (d + e)
  {
  }

  lemma AllSpaceConcat(a: string, b: string)
    requires AllSpace(a) && AllSpace(b)
    ensures AllSpace(a + b)
  {
    forall k | 0 <= k < |a + b| ensures IsSpace((a + b)[k]) {
      if k < |a| { assert (a + b)[k] == a[k]; } else { assert (a + b)[k] == b[k - |a|]; }
    }
  }

  /** Stripping twice is stripping once. */
  lemma StripIdempotent(s: string)
    ensures Strip(Strip(s)) == Strip(s)
  {
    var m := Strip(s);
    assert [] + m + [] == m;
    StripUnique([], m, []);
  }

  /** Python's `str.startswith(p)`. */
  predicate StartsWith(s: string, p: string) {
    |p| <= |s| && s[..|p|] == p
  }

  /** Python's `str.endswith(p)`. */
  predicate EndsWith(s: string, p: string) {
    |p| <= |s| && s[|s| - |p|..] == p
  }

  /** Python's `s.split(sep)` for a one-character separator: the maximal
      separator-free pieces, in order; there is always at least one. */
  function Split(s: string, sep: char): (r: seq<string>)
    ensures |r| >= 1
    ensures forall i :: 0 <= i < |r| ==> sep !in r[i]
    decreases |s|
  {
    if |s| == 0 then [[]]
    else
      var rest := Split(s[1..], sep);
      if s[0] == sep then [[]] + rest
      else [[s[0]] + rest[0]] + rest[1..]
  }

  /** Python's `sep.join(parts)`. */
  function Join(parts: seq<string>, sep: char): string
    decreases |parts|
  {
    if |parts| == 0 then []
    else if |parts| == 1 then parts[0]
    else parts[0] + [sep] + Join(parts[1..], sep)
  }

  /** Joining the pieces of a split gives back the original string. */
  lemma {:induction false} JoinSplit(s: string, sep: char)
    ensures Join(Split(s, sep), sep) == s
    decreases |s|
  {
    if |s| > 0 {
      var rest := Split(s[1..], sep);
      JoinSplit(s[1..], sep);
      if s[0] == sep {
        assert Split(s, sep) == [[]] + rest;
        assert ([[]] + rest)[1..] == rest;
        assert s == [] + [sep] + s[1..];
      } else {
        var r := Split(s, sep);
        assert r == [[s[0]] + rest[0]] + rest[1..];
        if |rest| == 1 {
          assert Join(rest, sep) == rest[0];
          assert s == [s[0]] + s[1..];
        } else {
          assert r[1..] == rest[1..];
          assert Join(rest, sep) == rest[0] + [sep] + Join(rest[1..], sep);
          assert s == [s[0]] + s[1..];
        }
      }
    }
  }

  /** Splitting a join of separator-free pieces gives back the pieces. */
  lemma {:induction false} SplitJoin(parts: seq<string>, sep: char)
    requires |parts| >= 1
    requires forall i :: 0 <= i < |parts| ==> sep !in parts[i]
    ensures Split(Join(parts, sep), sep) == parts
    decreases |parts|, |parts[0]|
  {
    var p := parts[0];
    if |p| == 0 {
      if |parts| == 1 {
        assert Join(parts, sep) == [];
      } else {
        var tail := parts[1..];
        SplitJoin(tail, sep);
        var j := Join(parts, sep);
        assert j == [sep] + Join(tail, sep);
        assert j[1..] == Join(tail, sep);
        assert Split(j, sep) == [[]] + tail;
        assert parts == [p] + tail;
      }
    } else {
      var parts' := [p[1..]] + parts[1..];
      assert forall i :: 0 <= i < |parts'| ==> sep !in parts'[i] by {
        forall i | 0 <= i < |parts'| ensures sep !in parts'[i] {
          if i == 0 {
            assert forall c :: c in p[1..] ==> c in p;
          } else {
            assert parts'[i] == parts[i];
          }
        }
      }
      SplitJoin(parts', sep);
      var j := Join(parts, sep);
      assert j == [p[0]] + Join(parts', sep) by {
        if |parts| == 1 {
          assert p == [p[0]] + p[1..];
        } else {
          assert parts'[1..] == parts[1..];
          assert p == [p[0]] + p[1..];
        }
      }
      assert j[0] == p[0] && j[1..] == Join(parts', sep);
      assert p[0] != sep by { assert p[0] in p; }
      var rest := Split(j[1..], sep);
      assert rest == parts';
      assert Split(j, sep) == [[p[0]] + p[1..]] + parts[1..];
      assert [p[0]] + p[1..] == p;
      assert parts == [p] + parts[1..];
    }
  }

  /** Joining two non-empty lists of pieces joins their joins. */
  lemma {:induction false} JoinAppend(a: seq<string>, b: seq<string>, sep: char)
    requires |a| >= 1 && |b| >= 1
    ensures Join(a + b, sep) == Join(a, sep) + [sep] + Join(b, sep)
    decreases |a|
  {
    if |a| == 1 {
      assert (a + b)[0] == a[0];
      assert (a + b)[1..] == b;
    } else {
      assert (a + b)[0] == a[0];
      assert (a + b)[1..] == a[1..] + b;
      JoinAppend(a[1..], b, sep);
    }
  }

  /** The pieces of `a + sep + b` are the pieces of `a` followed by those of `b`. */
  lemma SplitAppend(a: string, b: string, sep: char)
    ensures Split(a + [sep] + b, sep) == Split(a, sep) + Split(b, sep)
  {
    var pa, pb := Split(a, sep), Split(b, sep);
    JoinSplit(a, sep);
    JoinSplit(b, sep);
    JoinAppend(pa, pb, sep);
    assert forall i :: 0 <= i < |pa + pb| ==> sep !in (pa + pb)[i] by {
      forall i | 0 <= i < |pa + pb| ensures sep !in (pa + pb)[i] {
        if i < |pa| { assert (pa + pb)[i] == pa[i]; } else { assert (pa + pb)[i] == pb[i - |pa|]; }
      }
    }
    SplitJoin(pa + pb, sep);
  }

  /** A separator-free string splits into itself alone. */
  lemma SplitNoSeparator(s: string, sep: char)
    requires sep !in s
    ensures Split(s, sep) == [s]
  {
    SplitJoin([s], sep);
  }

  /** The last piece of `s.split(sep)`, i.e. `s.split(sep)[-1]`. */
  function LastPiece(s: string, sep: char): (r: string)
    ensures sep !in r
    ensures EndsWith(s, r)
  {
    var parts := Split(s, sep);
    JoinSplit(s, sep);
    JoinEndsWithLast(parts, sep);
    parts[|parts| - 1]
  }

  /** A join ends with its last piece. */
  lemma {:induction false} JoinEndsWithLast(parts: seq<string>, sep: char)
    requires |parts| >= 1
    ensures EndsWith(Join(parts, sep), parts[|parts| - 1])
    decreases |parts|
  {
    if |parts| > 1 {
      var tail := parts[1..];
      JoinEndsWithLast(tail, sep);
      assert tail[|tail| - 1] == parts[|parts| - 1];
      var j := Join(parts, sep);
      var jt := Join(tail, sep);
      assert j == parts[0] + [sep] + jt;
      assert j[|j| - |jt|..] == jt;
    }
  }

  /** The last piece is everything after the last separator. */
  lemma LastPieceAfterSeparator(a: string, b: string, sep: char)
    requires sep !in b
    ensures LastPiece(a + [sep] + b, sep) == b
  {
    SplitAppend(a, b, sep);
    SplitNoSeparator(b, sep);
  }

  /** `string.ascii_lowercase`. */
  const AsciiLowercase: string := "abcdefghijklmnopqrstuvwxyz"

  /** `string.ascii_uppercase`. */
  const AsciiUppercase: string := "ABCDEFGHIJKLMNOPQRSTUVWXYZ"

  /** `string.ascii_letters`. */
  const AsciiLetters: string := AsciiLowercase + AsciiUppercase

  /** `string.punctuation`. */
  const Punctuation: string := "!\"#$%&'()*+,-./:;<=>?@[\\]^_`{|}~"

  /** `string.digits`. */
  const Digits: string := "0123456789"
}
