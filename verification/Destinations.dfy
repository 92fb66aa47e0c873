/** Which Destination headers are refused, and as what (dav/destination.go). */
module Destinations {
  import opened Octets
  import opened Text
  import opened DavPath

  /** The host of an authority is what follows the last `@`. */
  ghost predicate HostOf(authority: Text, host: Text) {
    '@' !in host && (authority == host || exists user: Text :: authority == user + "@" + host)
  }

  /** The two differ in the case of letters alone. */
  ghost predicate SameHost(a: Text, b: Text) {
    |a| == |b| && forall k :: 0 <= k < |a| ==> SameLetter(a[k], b[k])
  }

  predicate SameLetter(x: Byte, y: Byte) {
    || x == y
    || ('a' <= x <= 'z' && x as int == y as int + 32)
    || ('a' <= y <= 'z' && y as int == x as int + 32)
  }

  lemma {:induction false} UserinfoGoes(user: Text, host: Text)
    requires '@' !in host
    ensures StripUserinfo(host) == host && StripUserinfo(user + "@" + host) == host
    decreases |user|
  {
    var at := IndexByte(user, '@');
    var whole := user + "@" + host;
    if at < 0 {
      IndexAfter(user, '@', host);
      assert whole[|user| + 1..] == host;
    } else {
      assert whole[..at] == user[..at];
      IndexIsFirst(whole, '@', at);
      assert whole[at + 1..] == user[at + 1..] + "@" + host;
      UserinfoGoes(user[at + 1..], host);
    }
  }

  lemma HostIsStripped(authority: Text, host: Text)
    requires HostOf(authority, host)
    ensures StripUserinfo(authority) == host
  {
    if authority == host {
      UserinfoGoes([], host);
    } else {
      var user: Text :| authority == user + "@" + host;
      UserinfoGoes(user, host);
    }
  }

  lemma FoldsExactlyWhenSame(a: Text, b: Text)
    ensures EqualFold(a, b) <==> SameHost(a, b)
  {
    if |a| == |b| {
      forall k | 0 <= k < |a| ensures Lower(a[k]) == Lower(b[k]) <==> SameLetter(a[k], b[k]) {}
    }
  }

  /** Section 3.1 of RFC 3986: a letter, then letters, digits, plus, hyphen and dot. */
  predicate IsScheme(s: Text) {
    && s != [] && IsLetter(s[0])
    && forall k :: 0 <= k < |s| ==> IsLetter(s[k]) || '0' <= s[k] <= '9' || s[k] == '+' || s[k] == '-' || s[k] == '.'
  }

  predicate IsLetter(c: Byte) {
    'a' <= c <= 'z' || 'A' <= c <= 'Z'
  }

  lemma SchemeTextIs(s: Text)
    ensures s != [] && SchemeText(s) <==> IsScheme(s)
  {
    if s != [] && SchemeText(s) {
      forall k | 0 <= k < |s|
        ensures IsLetter(s[k]) || '0' <= s[k] <= '9' || s[k] == '+' || s[k] == '-' || s[k] == '.'
      {
        assert s[k] in s;
      }
    }
  }

  /** The header as written: no blanks around it. */
  predicate Trimmed(value: Text) {
    value != [] && !IsBlank(value[0]) && !IsBlank(value[|value| - 1])
  }

  /** A space, or a tab, line feed, vertical tab, form feed or carriage return. */
  predicate IsBlank(c: Byte) {
    c == ' ' || c == '\t' || c == '\n' || c as int == 11 || c as int == 12 || c == '\r'
  }

  /** What is left of an absolute URL when its host is the request's. */
  function PathOrRoot(tail: Text): Text {
    if tail == [] then "/" else tail
  }

  lemma UrlSplits(scheme: Text, authority: Text, tail: Text)
    requires ':' !in scheme && '/' !in authority && (tail == [] || tail[0] == '/')
    ensures var value, rest := scheme + "://" + authority + tail, authority + tail;
            && SchemeAt(value) == |scheme| && value[..|scheme|] == scheme && value[|scheme| + 3..] == rest
            && IndexByte(rest, '/') == (if tail == [] then -1 else |authority|)
            && rest[..|authority|] == authority && rest[|authority|..] == tail
  {
    assert scheme + "://" + authority + tail == scheme + "://" + (authority + tail);
    SchemeFound(scheme, authority + tail);
    if tail != [] {
      IndexIsFirst(authority + tail, '/', |authority|);
    }
  }

  /**
   An absolute URL is read as its path when its host is the request's, in any case and whatever
   precedes an `@`, and is foreign otherwise; its scheme is not looked at.
   */
  lemma UrlIsForeignExactlyWhen(norm: seq<Text> -> seq<Text>, scheme: Text, authority: Text, host: Text, tail: Text,
          requestHost: Text, own: Text)
    requires IsScheme(scheme) && '/' !in authority && (tail == [] || tail[0] == '/')
    requires HostOf(authority, host) && HostOf(requestHost, own) && Trimmed(scheme + "://" + authority + tail)
    ensures Destination(norm, scheme + "://" + authority + tail, requestHost) ==
              if SameHost(host, own) then FromPath(norm, PathOrRoot(tail)) else Err(ForeignDestination)
  {
    var value := scheme + "://" + authority + tail;
    TrimsNothing(value);
    SchemeTextIs(scheme);
    UrlSplits(scheme, authority, tail);
    assert SchemeLength(value) == |scheme|;
    UrlPathIs(value, |scheme|, authority, tail, requestHost);
    HostIsStripped(authority, host);
    HostIsStripped(requestHost, own);
    FoldsExactlyWhenSame(host, own);
  }

  lemma UrlPathIs(value: Text, n: nat, authority: Text, tail: Text, requestHost: Text)
    requires value != [] && TrimSpace(value) == value && SchemeLength(value) == n > 0
    requires var rest := authority + tail;
             && value[n + 3..] == rest && rest[..|authority|] == authority && rest[|authority|..] == tail
             && IndexByte(rest, '/') == if tail == [] then -1 else |authority|
    ensures PathOf(value, requestHost) ==
              if EqualFold(StripUserinfo(authority), StripUserinfo(requestHost)) then Ok(PathOrRoot(tail))
              else Err(ForeignDestination)
  {
    if tail == [] {
      assert authority + tail == authority;
    }
  }

  /** What only looks like a URL is a path, and a path that does not begin at the root is none. */
  lemma OtherSchemesAreNone(norm: seq<Text> -> seq<Text>, scheme: Text, rest: Text, requestHost: Text)
    requires ':' !in scheme && !IsScheme(scheme) && Trimmed(scheme + "://" + rest)
    requires scheme != [] ==> scheme[0] != '/'
    ensures Destination(norm, scheme + "://" + rest, requestHost) == Err(NoDestination)
  {
    var value := scheme + "://" + rest;
    TrimsNothing(value);
    SchemeFound(scheme, rest);
    assert value[..|scheme|] == scheme;
    SchemeTextIs(scheme);
    assert SchemeLength(value) == 0;
    assert value[0] == if scheme == [] then ':' else scheme[0];
  }

  lemma RootedIsPath(norm: seq<Text> -> seq<Text>, path: Text, requestHost: Text)
    requires Trimmed(path) && path[0] == '/'
    ensures Destination(norm, path, requestHost) == FromPath(norm, path)
  {
    TrimsNothing(path);
    SchemeAtFinds(path);
    var i := SchemeAt(path);
    if i > 0 {
      assert path[..i][0] == '/';
    }
  }

  /** A query is no part of the destination. */
  lemma QueryIsDropped(norm: seq<Text> -> seq<Text>, path: Text, query: Text)
    requires path != [] && path[0] == '/' && '?' !in path
    ensures FromPath(norm, path + "?" + query) == FromPath(norm, path) == Parts(norm, path)
  {
    IndexAfter(path, '?', query);
    assert (path + "?" + query)[..|path|] == path;
  }

  /** Blanks around the header do not matter, and a header of nothing else names no destination. */
  lemma BlanksAreTrimmed(norm: seq<Text> -> seq<Text>, before: Text, value: Text, after: Text, requestHost: Text)
    requires (forall c :: c in before + after ==> IsBlank(c))
    requires value == [] || Trimmed(value)
    ensures Destination(norm, before + value + after, requestHost) == Destination(norm, value, requestHost)
    ensures Destination(norm, [], requestHost) == Err(NoDestination)
  {
    forall c | c in before + after ensures Blank(c) {}
    if value != [] {
      TrimmedValue(value);
    }
    TrimmedIs(before, value, after);
    TrimmedIs([], value, []);
    assert [] + value + [] == value;
    OnlyTrimmedMatters(norm, before + value + after, value, requestHost);
  }

  lemma TrimmedValue(value: Text)
    requires Trimmed(value)
    ensures !Blank(value[0]) && !Blank(value[|value| - 1])
  {
  }

  lemma OnlyTrimmedMatters(norm: seq<Text> -> seq<Text>, header: Text, value: Text, requestHost: Text)
    requires TrimSpace(header) == TrimSpace(value)
    ensures Destination(norm, header, requestHost) == Destination(norm, value, requestHost)
  {
  }

  lemma TrimmedIs(before: Text, value: Text, after: Text)
    requires forall c :: c in before + after ==> Blank(c)
    requires value == [] || (!Blank(value[0]) && !Blank(value[|value| - 1]))
    ensures TrimSpace(before + value + after) == value
  {
    assert forall c :: c in before ==> c in before + after;
    assert forall c :: c in after ==> c in before + after;
    LeftGoes(before, value + after);
    assert before + value + after == before + (value + after);
    if value == [] {
      LeftGoes(after, []);
      assert value + after == after && after + [] == after;
    } else {
      assert (value + after)[0] == value[0];
      assert TrimLeft(value + after) == value + after;
      RightGoes(value, after);
    }
  }

  lemma {:induction false} LeftGoes(blanks: Text, rest: Text)
    requires forall c :: c in blanks ==> Blank(c)
    ensures TrimLeft(blanks + rest) == TrimLeft(rest)
    decreases |blanks|
  {
    if blanks == [] {
      assert blanks + rest == rest;
    } else {
      assert (blanks + rest)[1..] == blanks[1..] + rest;
      LeftGoes(blanks[1..], rest);
    }
  }

  lemma {:induction false} RightGoes(rest: Text, blanks: Text)
    requires (forall c :: c in blanks ==> Blank(c)) && rest != [] && !Blank(rest[|rest| - 1])
    ensures TrimRight(rest + blanks) == rest
    decreases |blanks|
  {
    if blanks == [] {
      assert rest + blanks == rest;
    } else {
      var n := |blanks| - 1;
      assert (rest + blanks)[..|rest + blanks| - 1] == rest + blanks[..n];
      RightGoes(rest, blanks[..n]);
    }
  }

  // ---- The bytes of a path.

  const LOWER_HEX: Text := "0123456789abcdef"

  const UPPER_HEX: Text := "0123456789ABCDEF"

  /** A hexadecimal digit may be written in either case. */
  lemma HexExactlyWhen(c: Byte, n: nat)
    ensures Unhex(c) == Some(n) <==> n < 16 && (c == LOWER_HEX[n] || c == UPPER_HEX[n])
  {
  }

  /** Any byte may be written as a percent sign and its two digits, in either case. */
  lemma AnyByteMayBeEscaped(c: Byte, hi: Byte, lo: Byte)
    requires hi == LOWER_HEX[c as int / 16] || hi == UPPER_HEX[c as int / 16]
    requires lo == LOWER_HEX[c as int % 16] || lo == UPPER_HEX[c as int % 16]
    ensures Unescape(['%', hi, lo]) == Ok([c])
  {
    HexExactlyWhen(hi, c as int / 16);
    HexExactlyWhen(lo, c as int % 16);
    var s := ['%', hi, lo];
    assert s[3..] == [] && Unescape(s[3..]) == Ok([]);
    assert Pair(c as int / 16, c as int % 16) == c;
    assert Unescape(s) == Prefixed([c], Ok([]));
    assert [c] + [] == [c];
  }

  /** Section 2.3 of RFC 3986. */
  predicate IsUnreserved(c: Byte) {
    IsLetter(c) || '0' <= c <= '9' || c == '-' || c == '.' || c == '_' || c == '~'
  }

  /** An unreserved byte is printed as it is, and every other as a percent sign and upper-case digits. */
  lemma PrintedExactly(c: Byte)
    ensures EscapeByte(c) == if IsUnreserved(c) then [c] else ['%', UPPER_HEX[c as int / 16], UPPER_HEX[c as int % 16]]
  {
  }
}
