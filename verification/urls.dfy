/** The `URL` model (app/lib/models/url.py). The parser `urllib.parse.urlparse`
    is a library this model cannot see: a `URL` holds the three components of
    its result that the class consults, and the parser itself is passed in as
    a function wherever a `URL` is built from text. The parser may refuse its
    text (Python's parser raises `ValueError` on a netloc with an unbalanced `[` or
    `]`), so it yields an `Option`, `None` standing for that refusal. */
module Urls {
  import opened Results
  import opened Text
  import opened Numbers
  import opened LibFunctions

  /** The components of a `urlparse` result that the class reads. */
  datatype ParseResult = ParseResult(scheme: string, netloc: string, path: string)

  /** `URL(text)`: holds only the parse of `text`. */
  datatype Url = Url(parseresult: ParseResult)

  /** The standard port `get_port` falls back to. */
  const DefaultPort: int := 80

  /** `URL(text)` with `urlparse` given: `None` when the parser raises. */
  function FromText(text: string, urlparse: string -> Option<ParseResult>): (u: Option<Url>)
    ensures u.Some? <==> urlparse(text).Some?
    ensures u.Some? ==> urlparse(text) == Some(u.value.parseresult)
  {
    match urlparse(text)
    case Some(p) => Some(Url(p))
    case None => None
  }

  /** `has_scheme()`. */
  function HasScheme(u: Url): (r: bool)
    ensures r <==> !AllSpace(u.parseresult.scheme)
  {
    StringHasContent(Some(u.parseresult.scheme))
  }

  /** `has_netloc()`. */
  function HasNetloc(u: Url): (r: bool)
    ensures r <==> !AllSpace(u.parseresult.netloc)
  {
    StringHasContent(Some(u.parseresult.netloc))
  }

  /** `has_path()`. */
  function HasPath(u: Url): (r: bool)
    ensures r <==> !AllSpace(u.parseresult.path)
  {
    StringHasContent(Some(u.parseresult.path))
  }

  /** `get_port()`: the integer after the last `:` of the netloc, 80 when the
      netloc has no `:`, and `ValueError` when that text is not an integer. */
  function GetPort(u: Url): (r: Result<int, ValueError>)
    ensures ':' !in u.parseresult.netloc ==> r == Ok(DefaultPort)
    ensures r.Err? ==> ':' in u.parseresult.netloc
    ensures r.Err? ==> r.error.literal == LastPiece(u.parseresult.netloc, ':')
  {
    var netloc := u.parseresult.netloc;
    if ':' in netloc then ParseInt(LastPiece(netloc, ':')) else Ok(DefaultPort)
  }

  /** A netloc `host:port` yields `port`, whatever the host holds
      (colons included). */
  lemma GetPortOfHostPort(scheme: string, host: string, port: int, path: string)
    ensures GetPort(Url(ParseResult(scheme, host + [':'] + FormatInt(port), path))) == Ok(port)
  {
    var digits := FormatInt(port);
    assert ':' !in digits by {
      var d := NatToDecimal(if port < 0 then -port else port);
      forall k | 0 <= k < |digits| ensures digits[k] != ':' {
        if port < 0 && k == 0 {
        } else if port < 0 {
          assert digits[k] == d[k - 1];
        } else {
          assert digits[k] == d[k];
        }
      }
    }
    var netloc := host + [':'] + digits;
    assert netloc[|host|] == ':';
    LastPieceAfterSeparator(host, digits, ':');
    ParseFormat(port);
  }

  /** `h:8080` gives 8080. */
  lemma GetPortExample8080()
    ensures GetPort(Url(ParseResult("http", "h:8080", ""))) == Ok(8080)
  {
    assert DigitChar(8) == '8' && DigitChar(0) == '0';
    assert NatToDecimal(8) == "8";
    assert NatToDecimal(80) == "80";
    assert NatToDecimal(808) == "808";
    assert NatToDecimal(8080) == "8080";
    assert "h:8080" == "h" + [':'] + FormatInt(8080);
    GetPortOfHostPort("http", "h", 8080, "");
  }

  /** `a:b:9` gives 9: only the piece after the last `:` counts. */
  lemma GetPortExampleLastPiece()
    ensures GetPort(Url(ParseResult("http", "a:b:9", ""))) == Ok(9)
  {
    assert DigitChar(9) == '9';
    assert "a:b:9" == "a:b" + [':'] + FormatInt(9);
    GetPortOfHostPort("http", "a:b", 9, "");
  }

  /** A netloc ending in `:` has an empty last piece, which `int` rejects. */
  lemma GetPortEmptyAfterColon(scheme: string, host: string, path: string)
    ensures GetPort(Url(ParseResult(scheme, host + [':'], path))) == Err(ValueError([]))
  {
    var netloc := host + [':'];
    assert netloc == host + [':'] + [];
    assert netloc[|host|] == ':';
    LastPieceAfterSeparator(host, [], ':');
  }

  /** As written, `get_port` reads credentials as a port: in a netloc
      `user:pw@host` without a port the text after the last `:` is
      `pw@host`, and `int` rejects it because of the `@`. */
  lemma GetPortUserInfoFails(scheme: string, user: string, pw: string, host: string, path: string)
    requires ':' !in pw && ':' !in host
    ensures GetPort(Url(ParseResult(scheme, user + [':'] + pw + ['@'] + host, path))).Err?
  {
    var tail := pw + ['@'] + host;
    assert ':' !in tail by {
      forall k | 0 <= k < |tail| ensures tail[k] != ':' {
        if k < |pw| { assert tail[k] == pw[k]; }
        else if k > |pw| { assert tail[k] == host[k - |pw| - 1]; }
      }
    }
    var netloc := user + [':'] + pw + ['@'] + host;
    assert netloc == user + [':'] + tail;
    assert netloc[|user|] == ':';
    LastPieceAfterSeparator(user, tail, ':');
    ParseRejectsForeignChar(tail, |pw|);
  }

  /** As written, `get_port` reads the inside of an IPv6 literal as a port:
      the netloc `[::1]` gives `int("1]")`, which raises. */
  lemma GetPortIpv6Fails()
    ensures GetPort(Url(ParseResult("http", "[::1]", ""))).Err?
  {
    var tail := "1]";
    assert "[::1]" == "[:" + [':'] + tail;
    assert ':' !in tail;
    LastPieceAfterSeparator("[:", tail, ':');
    assert ':' in "[::1]" by { assert "[::1]"[1] == ':'; }
    ParseRejectsForeignChar(tail, 1);
  }

  /** `int` skips only `Py_ISSPACE` whitespace, so a port preceded by the
      separator `\x1c` (which `str.strip` would remove) raises. */
  lemma GetPortSeparatorBeforePort(scheme: string, host: string, port: int, path: string)
    ensures GetPort(Url(ParseResult(scheme, host + [':'] + (['\U{1C}'] + FormatInt(port)), path))).Err?
  {
    var tail := ['\U{1C}'] + FormatInt(port);
    assert ':' !in tail by {
      var d := NatToDecimal(if port < 0 then -port else port);
      forall k | 0 <= k < |tail| ensures tail[k] != ':' {
        if k == 1 && port < 0 {
        } else if k > 1 && port < 0 {
          assert tail[k] == d[k - 2];
        } else if k > 0 {
          assert tail[k] == d[k - 1];
        }
      }
    }
    var netloc := host + [':'] + tail;
    assert netloc[|host|] == ':';
    LastPieceAfterSeparator(host, tail, ':');
    ParseRejectsForeignChar(tail, 0);
  }

  /** The host-and-port part of a netloc: what follows the last `@`. */
  function HostInfo(netloc: string): (r: string)
    ensures '@' !in r
  {
    LastPiece(netloc, '@')
  }

  /** The port text of a host-and-port part, if it names one: after the
      closing `]` of a bracketed IPv6 host, otherwise after the last `:`. */
  function PortText(hostinfo: string): Option<string> {
    if |hostinfo| > 0 && hostinfo[0] == '[' then
      var after := LastPiece(hostinfo, ']');
      if ']' in hostinfo && |after| > 0 && after[0] == ':' then Some(after[1..]) else None
    else if ':' in hostinfo then Some(LastPiece(hostinfo, ':'))
    else None
  }

  /** `get_port` as evidently intended: user information and IPv6 brackets
      are not mistaken for a port. Where neither occurs it answers exactly as
      the original does. */
  function GetPortCorrected(u: Url): (r: Result<int, ValueError>)
    ensures ':' !in HostInfo(u.parseresult.netloc) ==> r == Ok(DefaultPort)
    ensures ('@' !in u.parseresult.netloc
             && (|u.parseresult.netloc| == 0 || u.parseresult.netloc[0] != '['))
              ==> r == GetPort(u)
  {
    var hostinfo := HostInfo(u.parseresult.netloc);
    assert ':' !in hostinfo ==> PortText(hostinfo).None? by {
      if |hostinfo| > 0 && hostinfo[0] == '[' {
        var after := LastPiece(hostinfo, ']');
        if |after| > 0 && after[0] == ':' {
          assert hostinfo[|hostinfo| - |after|] == ':';
        }
      }
    }
    assert '@' !in u.parseresult.netloc ==> hostinfo == u.parseresult.netloc by {
      if '@' !in u.parseresult.netloc {
        SplitNoSeparator(u.parseresult.netloc, '@');
      }
    }
    match PortText(hostinfo)
    case None => Ok(DefaultPort)
    case Some(t) => ParseInt(t)
  }

  /** User information in front of the host never changes the port. */
  lemma CorrectedIgnoresUserInfo(scheme: string, userinfo: string, host: string, path: string)
    requires '@' !in host
    ensures GetPortCorrected(Url(ParseResult(scheme, userinfo + ['@'] + host, path)))
            == GetPortCorrected(Url(ParseResult(scheme, host, path)))
  {
    LastPieceAfterSeparator(userinfo, host, '@');
    SplitNoSeparator(host, '@');
  }

  /** A bracketed IPv6 host without a port gets the default port. */
  lemma CorrectedIpv6Default(scheme: string, addr: string, path: string)
    requires '@' !in addr && ']' !in addr
    ensures GetPortCorrected(Url(ParseResult(scheme, "[" + addr + "]", path))) == Ok(DefaultPort)
  {
    var h := "[" + addr + "]";
    assert '@' !in h;
    SplitNoSeparator(h, '@');
    assert h == "[" + addr + [']'] + [];
    LastPieceAfterSeparator("[" + addr, [], ']');
  }

  /** A bracketed IPv6 host with a port yields that port. */
  lemma CorrectedIpv6Port(scheme: string, addr: string, port: nat, path: string)
    requires '@' !in addr && ']' !in addr
    ensures GetPortCorrected(Url(ParseResult(scheme, "[" + addr + "]:" + FormatInt(port), path))) == Ok(port)
  {
    var digits := FormatInt(port);
    var h := "[" + addr + "]:" + digits;
    assert HostInfo(h) == h by {
      assert forall k :: 0 <= k < |digits| ==> IsDigit(digits[k]);
      assert '@' !in h by {
        forall k | 0 <= k < |h| ensures h[k] != '@' {
          if k >= 1 + |addr| + 2 {
            assert h[k] == digits[k - |addr| - 3];
          }
        }
      }
      SplitNoSeparator(h, '@');
    }
    assert PortText(h) == Some(digits) by {
      var after := [':'] + digits;
      assert ']' !in after by {
        assert forall k :: 0 <= k < |digits| ==> IsDigit(digits[k]);
        forall k | 0 <= k < |after| ensures after[k] != ']' {
          if k > 0 { assert after[k] == digits[k - 1]; }
        }
      }
      assert h == "[" + addr + [']'] + after;
      LastPieceAfterSeparator("[" + addr, after, ']');
      assert h[0] == '[' && h[1 + |addr|] == ']';
      assert after[1..] == digits;
    }
    ParseFormat(port);
  }
}
