/** URL path segments (dav/path.go) and the Destination header (dav/destination.go). */
module DavPath {
  import opened Octets
  import opened Text

  datatype PathError = BadEscape | EncodedSeparator | NulByte | DotSegment | NoDestination | ForeignDestination

  const NUL: Byte := 0 as char

  /** `uniname.Components`: what is known of the normaliser. */
  ghost predicate Normaliser(norm: seq<Text> -> seq<Text>) {
    forall s :: NormalAt(norm, s)
  }

  /** It keeps the number of segments and empties none, and doing it twice is doing it once. */
  ghost predicate NormalAt(norm: seq<Text> -> seq<Text>, s: seq<Text>) {
    |norm(s)| == |s| && norm(norm(s)) == norm(s) && forall k :: 0 <= k < |s| && s[k] != [] ==> norm(s)[k] != []
  }

  /** `checkSegment`. */
  function CheckSegment(seg: Text): Option<PathError> {
    if '/' in seg then Some(EncodedSeparator)
    else if NUL in seg then Some(NulByte)
    else if seg == "." || seg == ".." then Some(DotSegment)
    else None
  }

  ghost predicate Clean(seg: Text) {
    seg != [] && '/' !in seg && NUL !in seg && seg != "." && seg != ".."
  }

  ghost predicate AllClean(segs: seq<Text>) {
    segs == [] || (Clean(segs[0]) && AllClean(segs[1..]))
  }

  function Unhex(c: Byte): Option<nat> {
    if '0' <= c <= '9' then Some(c as int - '0' as int)
    else if 'a' <= c <= 'f' then Some(c as int - 'a' as int + 10)
    else if 'A' <= c <= 'F' then Some(c as int - 'A' as int + 10)
    else None
  }

  /** `unescapeSegment`, from the front. */
  function Unescape(seg: Text): Result<Text, PathError> {
    if seg == [] then Ok([])
    else if seg[0] != '%' then Prefixed([seg[0]], Unescape(seg[1..]))
    else if |seg| < 3 || Unhex(seg[1]).None? || Unhex(seg[2]).None? then Err(BadEscape)
    else Prefixed([Pair(Unhex(seg[1]).value, Unhex(seg[2]).value)], Unescape(seg[3..]))
  }

  function Pair(hi: nat, lo: nat): Byte
    requires hi < 16 && lo < 16
  {
    (16 * hi + lo) as char
  }

  /** The loop over one segment. */
  method UnescapeSegment(seg: Text) returns (r: Result<Text, PathError>)
    ensures r == Unescape(seg)
  {
    if '%' !in seg {
      PlainUnescapes(seg);
      return Ok(seg);
    }
    var out: Text := [];
    var i := 0;
    assert seg[0..] == seg;
    PrefixedNone(out, Unescape(seg));
    while i < |seg|
      invariant 0 <= i <= |seg|
      invariant Unescape(seg) == Prefixed(out, Unescape(seg[i..]))
    {
      if seg[i] != '%' {
        assert seg[i..][1..] == seg[i + 1..];
        PrefixedMore(out, seg[i], Unescape(seg[i + 1..]));
        out := out + [seg[i]];
        i := i + 1;
        continue;
      }
      if i + 2 >= |seg| {
        return Err(BadEscape);
      }
      var hi, lo := Unhex(seg[i + 1]), Unhex(seg[i + 2]);
      if hi.None? || lo.None? {
        return Err(BadEscape);
      }
      assert seg[i..][3..] == seg[i + 3..];
      PrefixedMore(out, Pair(hi.value, lo.value), Unescape(seg[i + 3..]));
      out := out + [Pair(hi.value, lo.value)];
      i := i + 3;
    }
    PrefixedNone(out, Unescape([]));
    return Ok(out);
  }

  lemma {:induction false} PlainUnescapes(seg: Text)
    requires '%' !in seg
    ensures Unescape(seg) == Ok(seg)
  {
    if seg != [] {
      PlainUnescapes(seg[1..]);
      assert seg == [seg[0]] + seg[1..];
    }
  }

  lemma {:induction false} UnescapedNonEmpty(seg: Text)
    requires seg != [] && Unescape(seg).Ok?
    ensures Unescape(seg).value != []
  {
  }

  /** The first pass: every non-empty piece decoded and checked, in order. */
  function Decode(pieces: seq<Text>): Result<seq<Text>, PathError> {
    if pieces == [] then Ok([])
    else
      var rest := Decode(pieces[1..]);
      if pieces[0] == [] then rest
      else
        match Unescape(pieces[0])
        case Err(e) => Err(e)
        case Ok(seg) =>
          if CheckSegment(seg).Some? then Err(CheckSegment(seg).value)
          else Prefixed([seg], rest)
  }

  /** The second pass, over the normalised segments. */
  function CheckAll(segs: seq<Text>): Option<PathError> {
    if segs == [] then None
    else if CheckSegment(segs[0]).Some? then CheckSegment(segs[0])
    else CheckAll(segs[1..])
  }

  /** What `SplitPath` answers. */
  function Parts(norm: seq<Text> -> seq<Text>, raw: Text): Result<seq<Text>, PathError> {
    var pieces := Split(if raw != [] && raw[0] == '/' then raw[1..] else raw, '/');
    match Decode(pieces)
    case Err(e) => Err(e)
    case Ok(segs) =>
      var out := norm(segs);
      if CheckAll(out).Some? then Err(CheckAll(out).value) else Ok(out)
  }

  /** One round of the first pass. */
  lemma DecodeFrom(pieces: seq<Text>, i: nat)
    requires i < |pieces|
    ensures Decode(pieces[i..]) ==
              if pieces[i] == [] then Decode(pieces[i + 1..])
              else
                match Unescape(pieces[i])
                case Err(e) => Err(e)
                case Ok(seg) =>
                  if CheckSegment(seg).Some? then Err(CheckSegment(seg).value)
                  else Prefixed([seg], Decode(pieces[i + 1..]))
  {
    assert pieces[i..][1..] == pieces[i + 1..];
  }

  method SplitPath(norm: seq<Text> -> seq<Text>, raw: Text) returns (r: Result<seq<Text>, PathError>)
    ensures r == Parts(norm, raw)
  {
    var pieces := Split(if raw != [] && raw[0] == '/' then raw[1..] else raw, '/');
    var out: seq<Text> := [];
    assert pieces[0..] == pieces;
    PrefixedNone(out, Decode(pieces));
    for i := 0 to |pieces|
      invariant Decode(pieces) == Prefixed(out, Decode(pieces[i..]))
    {
      DecodeFrom(pieces, i);
      if pieces[i] != [] {
        var decoded := UnescapeSegment(pieces[i]);
        if decoded.Err? {
          return Err(decoded.error);
        }
        if CheckSegment(decoded.value).Some? {
          return Err(CheckSegment(decoded.value).value);
        }
        PrefixedMore(out, decoded.value, Decode(pieces[i + 1..]));
        out := out + [decoded.value];
      }
    }
    PrefixedNone(out, Decode([]));
    out := norm(out);
    var bad := CheckComponents(out);
    return if bad.Some? then Err(bad.value) else Ok(out);
  }

  method CheckComponents(segs: seq<Text>) returns (bad: Option<PathError>)
    ensures bad == CheckAll(segs)
  {
    assert segs[0..] == segs;
    for i := 0 to |segs|
      invariant CheckAll(segs) == CheckAll(segs[i..])
    {
      assert segs[i..][1..] == segs[i + 1..];
      if CheckSegment(segs[i]).Some? {
        return CheckSegment(segs[i]);
      }
    }
    return None;
  }

  // ---- The printer.

  predicate Unreserved(c: Byte) {
    'a' <= c <= 'z' || 'A' <= c <= 'Z' || '0' <= c <= '9' || c == '-' || c == '.' || c == '_' || c == '~'
  }

  function HexDigit(n: nat): Byte
    requires n < 16
  {
    if n < 10 then ('0' as int + n) as char else ('A' as int + n - 10) as char
  }

  function EscapeByte(c: Byte): Text {
    if Unreserved(c) then [c] else ['%', HexDigit(c as int / 16), HexDigit(c as int % 16)]
  }

  /** `appendEscaped`. */
  function Escape(seg: Text): Text {
    if seg == [] then [] else EscapeByte(seg[0]) + Escape(seg[1..])
  }

  function EscapeAll(segs: seq<Text>): (out: seq<Text>)
    ensures |out| == |segs|
    ensures forall k :: 0 <= k < |segs| ==> out[k] == Escape(segs[k])
  {
    if segs == [] then [] else [Escape(segs[0])] + EscapeAll(segs[1..])
  }

  /** What `EncodeHref` answers. */
  function Href(segs: seq<Text>, collection: bool): Text {
    "/" + Join(EscapeAll(segs), '/') + if collection && segs != [] then "/" else ""
  }

  /** The leading slash and the first `n` segments, escaped and joined. */
  function Body(segs: seq<Text>, n: nat): Text
    requires n <= |segs|
  {
    "/" + Join(EscapeAll(segs[..n]), '/')
  }

  lemma OneMore(segs: seq<Text>, n: nat)
    requires n < |segs|
    ensures segs[..n + 1] == segs[..n] + [segs[n]]
  {
  }

  lemma EscapedOnce(segs: seq<Text>, n: nat)
    requires n < |segs|
    ensures EscapeAll(segs[..n + 1]) == EscapeAll(segs[..n]) + [Escape(segs[n])]
  {
    OneMore(segs, n);
    EscapeAllSnoc(segs[..n], segs[n]);
  }

  lemma SlashFirst(a: Text, b: Text)
    ensures "/" + (a + ['/'] + b) == ("/" + a) + "/" + b
  {
  }

  lemma SlashSnoc(parts: seq<Text>, last: Text)
    ensures "/" + Join(parts + [last], '/')
         == (if parts != [] then ("/" + Join(parts, '/')) + "/" else "/" + Join(parts, '/')) + last
  {
    JoinSnoc(parts, last, '/');
    if parts != [] {
      SlashFirst(Join(parts, '/'), last);
    }
  }

  lemma BodySnoc(segs: seq<Text>, n: nat)
    requires n < |segs|
    ensures Body(segs, n + 1) == (if n > 0 then Body(segs, n) + "/" else Body(segs, n)) + Escape(segs[n])
  {
    EscapedOnce(segs, n);
    SlashSnoc(EscapeAll(segs[..n]), Escape(segs[n]));
  }

  method EncodeHref(segs: seq<Text>, collection: bool) returns (out: Text)
    ensures out == Href(segs, collection)
  {
    out := "/";
    for i := 0 to |segs|
      invariant out == Body(segs, i)
    {
      BodySnoc(segs, i);
      if i > 0 {
        out := out + "/";
      }
      out := AppendEscaped(out, segs[i]);
    }
    assert segs[..|segs|] == segs;
    if collection && |segs| > 0 {
      out := out + "/";
    }
  }

  method AppendEscaped(prefix: Text, seg: Text) returns (out: Text)
    ensures out == prefix + Escape(seg)
  {
    out := prefix;
    assert seg[0..] == seg;
    for i := 0 to |seg|
      invariant out + Escape(seg[i..]) == prefix + Escape(seg)
    {
      EscapeNext(out, seg, i);
      var c := seg[i];
      if Unreserved(c) {
        out := out + [c];
      } else {
        out := out + ['%', HexDigit(c as int / 16), HexDigit(c as int % 16)];
      }
    }
    assert out + [] == out;
  }

  lemma EscapeNext(out: Text, seg: Text, i: nat)
    requires i < |seg|
    ensures out + Escape(seg[i..]) == out + EscapeByte(seg[i]) + Escape(seg[i + 1..])
  {
    assert seg[i..][1..] == seg[i + 1..];
    Associates(out, EscapeByte(seg[i]), Escape(seg[i + 1..]));
  }

  lemma {:induction false} EscapeAllSnoc(segs: seq<Text>, seg: Text)
    ensures EscapeAll(segs + [seg]) == EscapeAll(segs) + [Escape(seg)]
  {
    var a, b := EscapeAll(segs + [seg]), EscapeAll(segs) + [Escape(seg)];
    forall k | 0 <= k < |a| ensures a[k] == b[k] {
      assert (segs + [seg])[k] == if k < |segs| then segs[k] else seg;
    }
  }

  // ---- Round trips.

  lemma HexPairs(c: Byte)
    ensures Unhex(HexDigit(c as int / 16)) == Some(c as int / 16)
    ensures Unhex(HexDigit(c as int % 16)) == Some(c as int % 16)
  {
  }

  /** Escaping loses nothing and leaves nothing but unreserved bytes and percent escapes. */
  lemma {:induction false} UnescapeInverts(seg: Text)
    ensures Unescape(Escape(seg)) == Ok(seg)
    ensures forall c :: c in Escape(seg) ==> Unreserved(c) || c == '%'
  {
    if seg != [] {
      var c, rest := seg[0], Escape(seg[1..]);
      UnescapeInverts(seg[1..]);
      HexPairs(c);
      assert seg == [c] + seg[1..];
      var e := EscapeByte(c) + rest;
      assert e[|EscapeByte(c)|..] == rest;
    }
  }

  lemma EscapedNonEmpty(seg: Text)
    requires seg != []
    ensures Escape(seg) != []
  {
    assert |EscapeByte(seg[0])| > 0;
  }

  /** One round of the first pass over an escaped segment. */
  lemma DecodesEscaped(seg: Text, pieces: seq<Text>)
    requires seg != [] && CheckSegment(seg).None?
    ensures Decode([Escape(seg)] + pieces) == Prefixed([seg], Decode(pieces))
  {
    UnescapeInverts(seg);
    EscapedNonEmpty(seg);
    assert ([Escape(seg)] + pieces)[1..] == pieces;
  }

  lemma {:induction false} DecodeInverts(segs: seq<Text>)
    requires AllClean(segs)
    ensures Decode(EscapeAll(segs)) == Ok(segs)
  {
    if segs != [] {
      DecodesEscaped(segs[0], EscapeAll(segs[1..]));
      DecodeInverts(segs[1..]);
      assert [segs[0]] + segs[1..] == segs;
    }
  }

  lemma {:induction false} DecodeSkipsEmpty(pieces: seq<Text>)
    ensures Decode(pieces + [[]]) == Decode(pieces)
  {
    if pieces != [] {
      DecodeSkipsEmpty(pieces[1..]);
      assert (pieces + [[]])[1..] == pieces[1..] + [[]];
    } else {
      assert Decode([[]]) == Decode([[]][1..]);
    }
  }

  lemma {:induction false} CleanChecks(segs: seq<Text>)
    requires AllClean(segs)
    ensures CheckAll(segs) == None
  {
    if segs != [] {
      CleanChecks(segs[1..]);
    }
  }

  lemma {:induction false} CheckedIsClean(segs: seq<Text>)
    requires CheckAll(segs) == None && forall k :: 0 <= k < |segs| ==> segs[k] != []
    ensures AllClean(segs)
  {
    if segs != [] {
      CheckedIsClean(segs[1..]);
      assert segs == [segs[0]] + segs[1..];
    }
  }

  /** The names a path can carry. */
  ghost predicate Nameable(norm: seq<Text> -> seq<Text>, segs: seq<Text>) {
    AllClean(segs) && norm(segs) == segs
  }

  lemma NoSlashEscaped(segs: seq<Text>)
    ensures forall p :: p in EscapeAll(segs) ==> '/' !in p
  {
    var parts := EscapeAll(segs);
    forall p | p in parts ensures '/' !in p {
      var k :| 0 <= k < |parts| && parts[k] == p;
      UnescapeInverts(segs[k]);
    }
  }

  lemma EscapedIsOnePiece(segs: seq<Text>)
    requires segs != []
    ensures Split(Join(EscapeAll(segs), '/'), '/') == EscapeAll(segs)
  {
    NoSlashEscaped(segs);
    SplitInvertsJoin(EscapeAll(segs), '/');
  }

  lemma HrefPieces(segs: seq<Text>, collection: bool)
    ensures Href(segs, collection)[0] == '/'
    ensures Decode(Split(Href(segs, collection)[1..], '/')) == Decode(EscapeAll(segs))
  {
    var parts := EscapeAll(segs);
    var body := Join(parts, '/');
    var tail: Text := if collection && segs != [] then "/" else "";
    AfterSlash(body, tail);
    if segs == [] {
      NoPieces();
    } else {
      EscapedIsOnePiece(segs);
      if collection {
        SplitSnoc(body, '/');
        DecodeSkipsEmpty(parts);
      } else {
        assert body + tail == body;
      }
    }
  }

  lemma AfterSlash(body: Text, tail: Text)
    ensures ("/" + body + tail)[0] == '/' && ("/" + body + tail)[1..] == body + tail
  {
  }

  lemma NoPieces()
    ensures Decode(Split([] + [], '/')) == Decode([])
  {
    var none: Text := [];
    assert none + none == none;
    DecodeSkipsEmpty([]);
    assert [] + [none] == [none];
    assert Split(none, '/') == [none];
  }

  /** Reading a printed href gives the segments back, with or without the collection slash. */
  lemma SplitInvertsHref(norm: seq<Text> -> seq<Text>, segs: seq<Text>, collection: bool)
    requires Nameable(norm, segs)
    ensures Parts(norm, Href(segs, collection)) == Ok(segs)
  {
    HrefPieces(segs, collection);
    DecodeInverts(segs);
    CleanChecks(segs);
  }

  lemma {:induction false} DecodedNonEmpty(pieces: seq<Text>)
    requires Decode(pieces).Ok?
    ensures var segs := Decode(pieces).value; forall k :: 0 <= k < |segs| ==> segs[k] != []
  {
    if pieces != [] {
      DecodedNonEmpty(pieces[1..]);
      if pieces[0] != [] {
        UnescapedNonEmpty(pieces[0]);
      }
    }
  }

  /** Everything accepted is such a list of names, so printing and reading it again changes nothing. */
  lemma AcceptedIsFixedPoint(norm: seq<Text> -> seq<Text>, raw: Text, collection: bool)
    requires Normaliser(norm) && Parts(norm, raw).Ok?
    ensures Nameable(norm, Parts(norm, raw).value)
    ensures Parts(norm, Href(Parts(norm, raw).value, collection)) == Parts(norm, raw)
  {
    var pieces := Split(if raw != [] && raw[0] == '/' then raw[1..] else raw, '/');
    var segs := Decode(pieces).value;
    DecodedNonEmpty(pieces);
    assert NormalAt(norm, segs);
    CheckedIsClean(norm(segs));
    SplitInvertsHref(norm, norm(segs), collection);
  }

  function NonEmpty(pieces: seq<Text>): seq<Text> {
    if pieces == [] then []
    else if pieces[0] == [] then NonEmpty(pieces[1..])
    else [pieces[0]] + NonEmpty(pieces[1..])
  }

  /** No decoded byte becomes a boundary: segments are the decoded non-empty pieces, one for one. */
  lemma {:induction false} BoundariesAreRaw(pieces: seq<Text>)
    requires Decode(pieces).Ok?
    ensures var segs, raw := Decode(pieces).value, NonEmpty(pieces);
            && |segs| == |raw|
            && forall k :: 0 <= k < |segs| ==> Unescape(raw[k]) == Ok(segs[k]) && CheckSegment(segs[k]) == None
  {
    if pieces != [] {
      BoundariesAreRaw(pieces[1..]);
    }
  }

  // ---- The Destination header.

  function SchemeAt(value: Text): int {
    if |value| < 3 then -1
    else if value[..3] == "://" then 0
    else var i := SchemeAt(value[1..]); if i < 0 then -1 else i + 1
  }

  predicate Alpha(c: Byte) {
    'a' <= c <= 'z' || 'A' <= c <= 'Z'
  }

  predicate SchemeText(s: Text) {
    && (s != [] ==> Alpha(s[0]))
    && forall c :: c in s ==> Alpha(c) || '0' <= c <= '9' || c == '+' || c == '-' || c == '.'
  }

  /** `schemeOf`: the length of a leading scheme, or zero. */
  function SchemeLength(value: Text): (n: nat)
    ensures n > 0 ==> n + 3 <= |value| && value[n..n + 3] == "://"
  {
    SchemeAtFinds(value);
    var i := SchemeAt(value);
    if i <= 0 || !SchemeText(value[..i]) then 0 else i
  }

  lemma {:induction false} SchemeAtFinds(value: Text)
    ensures var i := SchemeAt(value); -1 <= i && (i >= 0 ==> i + 3 <= |value| && value[i..i + 3] == "://")
  {
    if |value| >= 3 && value[..3] != "://" {
      SchemeAtFinds(value[1..]);
    }
  }

  function StripUserinfo(host: Text): Text
  {
    var at := IndexByte(host, '@');
    if at < 0 then host else StripUserinfo(host[at + 1..])
  }

  function BeforeQuery(path: Text): Text {
    var q := IndexByte(path, '?');
    if q < 0 then path else path[..q]
  }

  /** The path a destination names: the value itself, or what follows the host when the host is the request's. */
  function PathOf(header: Text, requestHost: Text): Result<Text, PathError> {
    PathOfValue(TrimSpace(header), requestHost)
  }

  function PathOfValue(value: Text, requestHost: Text): Result<Text, PathError> {
    if value == [] then Err(NoDestination)
    else
      var n := SchemeLength(value);
      if n == 0 then Ok(value)
      else
        var rest := value[n + 3..];
        var slash := IndexByte(rest, '/');
        var host := if slash >= 0 then rest[..slash] else rest;
        if !EqualFold(StripUserinfo(host), StripUserinfo(requestHost)) then Err(ForeignDestination)
        else Ok(if slash >= 0 then rest[slash..] else "/")
  }

  /** `ParseDestination`. */
  function Destination(norm: seq<Text> -> seq<Text>, header: Text, requestHost: Text): Result<seq<Text>, PathError> {
    match PathOf(header, requestHost)
    case Err(e) => Err(e)
    case Ok(path) => FromPath(norm, path)
  }

  function FromPath(norm: seq<Text> -> seq<Text>, path: Text): Result<seq<Text>, PathError> {
    if path == [] || path[0] != '/' then Err(NoDestination) else Parts(norm, BeforeQuery(path))
  }

  ghost predicate HrefText(s: Text) {
    forall k :: 0 <= k < |s| ==> Unreserved(s[k]) || s[k] == '%' || s[k] == '/'
  }

  lemma HrefBytes(segs: seq<Text>, collection: bool)
    ensures HrefText(Href(segs, collection)) && Href(segs, collection)[0] == '/'
  {
    forall k | 0 <= k < |segs| ensures HrefText(EscapeAll(segs)[k]) {
      UnescapeInverts(segs[k]);
    }
    JoinBytes(EscapeAll(segs));
  }

  lemma {:induction false} JoinBytes(parts: seq<Text>)
    requires forall k :: 0 <= k < |parts| ==> HrefText(parts[k])
    ensures HrefText(Join(parts, '/'))
  {
    if |parts| > 1 {
      JoinBytes(parts[1..]);
    }
  }

  lemma {:induction false} NoColonNoScheme(value: Text)
    requires ':' !in value
    ensures SchemeAt(value) == -1
  {
    if |value| >= 3 {
      assert value[..3][0] == value[0];
      NoColonNoScheme(value[1..]);
    }
  }

  /** A printed href is read back as a destination, on any host. */
  lemma DestinationReadsHref(norm: seq<Text> -> seq<Text>, segs: seq<Text>, collection: bool, requestHost: Text)
    requires Nameable(norm, segs)
    ensures Destination(norm, Href(segs, collection), requestHost) == Ok(segs)
  {
    var href := Href(segs, collection);
    HrefBytes(segs, collection);
    assert forall k :: 0 <= k < |href| ==> !Blank(href[k]) && href[k] != ':' && href[k] != '?';
    TrimsNothing(href);
    NoColonNoScheme(href);
    FromPathReadsHref(norm, segs, collection);
  }

  /** So is the same href on an absolute URL of the request's own host, whatever the scheme. */
  lemma {:induction false} DestinationReadsUrl(norm: seq<Text> -> seq<Text>, scheme: Text, host: Text, segs: seq<Text>,
          collection: bool)
    requires Nameable(norm, segs) && scheme != [] && SchemeText(scheme) && '/' !in host
    ensures Destination(norm, scheme + "://" + host + Href(segs, collection), host) == Ok(segs)
  {
    HrefBytes(segs, collection);
    UrlPath(scheme, host, Href(segs, collection));
    FromPathReadsHref(norm, segs, collection);
  }

  lemma UrlPath(scheme: Text, host: Text, href: Text)
    requires scheme != [] && SchemeText(scheme) && '/' !in host && HrefText(href) && href != [] && href[0] == '/'
    ensures PathOf(scheme + "://" + host + href, host) == Ok(href)
  {
    UrlParts(scheme, host, href);
    OnOwnHost(scheme + "://" + host + href, |scheme|, host, href);
  }

  lemma OnOwnHost(value: Text, n: nat, host: Text, href: Text)
    requires value != [] && TrimSpace(value) == value && SchemeLength(value) == n > 0 && value[n + 3..] == host + href
    requires IndexByte(host + href, '/') == |host| && (host + href)[..|host|] == host && (host + href)[|host|..] == href
    ensures PathOf(value, host) == Ok(href)
  {
  }

  lemma FromPathReadsHref(norm: seq<Text> -> seq<Text>, segs: seq<Text>, collection: bool)
    requires Nameable(norm, segs)
    ensures FromPath(norm, Href(segs, collection)) == Ok(segs)
  {
    HrefBytes(segs, collection);
    assert '?' !in Href(segs, collection);
    SplitInvertsHref(norm, segs, collection);
  }

  lemma {:induction false} UrlParts(scheme: Text, host: Text, href: Text)
    requires scheme != [] && SchemeText(scheme) && '/' !in host && HrefText(href) && href != [] && href[0] == '/'
    ensures var value := scheme + "://" + host + href;
            && TrimSpace(value) == value && SchemeLength(value) == |scheme| && value[|scheme| + 3..] == host + href
            && IndexByte(host + href, '/') == |host| && (host + href)[..|host|] == host
                && (host + href)[|host|..] == href
  {
    var value := scheme + "://" + host + href;
    assert value[0] == scheme[0] && value[|value| - 1] == href[|href| - 1];
    TrimsNothing(value);
    assert value == scheme + "://" + (host + href);
    SchemeFound(scheme, host + href);
    assert value[..|scheme|] == scheme;
    IndexIsFirst(host + href, '/', |host|);
  }

  lemma {:induction false} SchemeFound(scheme: Text, rest: Text)
    requires ':' !in scheme
    ensures SchemeAt(scheme + "://" + rest) == |scheme|
  {
    var value := scheme + "://" + rest;
    if scheme == [] {
      assert value[..3] == "://";
    } else {
      assert value[..3][0] == scheme[0];
      assert value[1..] == scheme[1..] + "://" + rest;
      SchemeFound(scheme[1..], rest);
    }
  }
}
