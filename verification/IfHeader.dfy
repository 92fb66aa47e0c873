/** The If header of section 10.4 of RFC 4918: its reader, a printer, and its evaluation (dav/ifheader.go). */
module IfHeader {
  import opened Octets
  import opened Text
  import opened DavPath

  datatype IfError = BadIf | IfTooLarge

  datatype ETag = ETag(value: Text, weak: bool)

  /** A state token is never empty, so the source's empty token field is the tag case. */
  datatype Term = Token(token: Text) | Tag(etag: ETag)

  datatype Condition = Condition(not: bool, term: Term)

  datatype ConditionList = ConditionList(resource: Option<seq<Text>>, conditions: seq<Condition>)

  /** The bounds a header is read under; bytes and nameBytes are off at zero or below. */
  datatype Limits = Limits(bytes: int, nameBytes: int, conditions: int)

  /** How a resource tag is read: `ParseDestination` on the request's host. */
  type Dest = Text -> Result<seq<Text>, PathError>

  function At(norm: seq<Text> -> seq<Text>, host: Text): Dest {
    (raw: Text) => Destination(norm, raw, host)
  }

  predicate StrongEquals(a: ETag, b: ETag) {
    !a.weak && !b.weak && a.value == b.value
  }

  function ParseETag(raw: Text): Option<ETag> {
    var s := TrimSpace(raw);
    var weak := |s| >= 2 && s[..2] == "W/";
    var t := if weak then s[2..] else s;
    if |t| < 2 || t[0] != '"' || t[|t| - 1] != '"' || '"' in t[1..|t| - 1] then None
    else Some(ETag(t[1..|t| - 1], weak))
  }

  // ---- The grammar, read from the front of what is left.

  predicate Gap(c: Byte) {
    c == ' ' || c == '\t'
  }

  function SkipGaps(s: Text): (r: Text)
    ensures |r| <= |s|
  {
    if s != [] && Gap(s[0]) then SkipGaps(s[1..]) else s
  }

  /** `Not`, in any case, when what follows may open a condition. */
  predicate NotAhead(s: Text) {
    |s| >= 3 && EqualFold(s[..3], "Not") && (|s| == 3 || Gap(s[3]) || s[3] == '<' || s[3] == '[')
  }

  function ReadTerm(s: Text, lim: Limits): (r: Result<(Term, Text), IfError>)
    ensures r.Ok? ==> |r.value.1| < |s|
  {
    if s == [] then Err(BadIf)
    else if s[0] == '<' then
      var end := IndexByte(s, '>');
      if end < 0 || end == 1 then Err(BadIf)
      else if lim.nameBytes > 0 && end - 1 > lim.nameBytes then Err(IfTooLarge)
      else Ok((Token(s[1..end]), s[end + 1..]))
    else if s[0] == '[' then
      var end := IndexByte(s, ']');
      if end < 0 || ParseETag(s[1..end]).None? then Err(BadIf)
      else Ok((Tag(ParseETag(s[1..end]).value), s[end + 1..]))
    else Err(BadIf)
  }

  function ReadCondition(s: Text, lim: Limits): (r: Result<(Condition, Text), IfError>)
    ensures r.Ok? ==> |r.value.1| < |s|
  {
    var neg := NotAhead(s);
    match ReadTerm(if neg then SkipGaps(s[3..]) else s, lim)
    case Err(e) => Err(e)
    case Ok((term, rest)) => Ok((Condition(neg, term), rest))
  }

  /** The rest of a list of which `n` conditions have been read. */
  function ReadConditions(s: Text, lim: Limits, n: nat): (r: Result<(seq<Condition>, Text), IfError>)
    ensures r.Ok? ==> |r.value.1| < |s|
    decreases |s|
  {
    if s == [] then Err(BadIf)
    else if Gap(s[0]) then ReadConditions(s[1..], lim, n)
    else if s[0] == ')' then if n == 0 then Err(BadIf) else Ok(([], s[1..]))
    else
      match ReadCondition(s, lim)
      case Err(e) => Err(e)
      case Ok((c, rest)) =>
        if n >= lim.conditions then Err(IfTooLarge)
        else Continued([c], ReadConditions(rest, lim, n + 1))
  }

  /** A resource tag: a destination between angle brackets. */
  function ReadTag(dest: Dest, s: Text): (r: Result<(seq<Text>, Text), IfError>)
    requires s != []
    ensures r.Ok? ==> |r.value.1| < |s|
  {
    var end := IndexByte(s, '>');
    if end < 1 then Err(BadIf)
    else
      match dest(s[1..end])
      case Err(_) => Err(BadIf)
      case Ok(segs) => Ok((segs, s[end + 1..]))
  }

  /** The rest of a header of which `n` lists have been read, under the last resource tag. */
  function ReadLists(dest: Dest, lim: Limits, s: Text, resource: Option<seq<Text>>, n: nat)
    : Result<seq<ConditionList>, IfError>
    decreases |s|
  {
    if s == [] then Ok([])
    else if Gap(s[0]) then ReadLists(dest, lim, s[1..], resource, n)
    else if s[0] == '<' then
      (match ReadTag(dest, s)
       case Err(e) => Err(e)
       case Ok((segs, rest)) => ReadLists(dest, lim, rest, Some(segs), n))
    else if s[0] == '(' then
      match ReadConditions(s[1..], lim, 0)
      case Err(e) => Err(e)
      case Ok((cs, rest)) =>
        if n >= lim.conditions then Err(IfTooLarge)
        else Prefixed([ConditionList(resource, cs)], ReadLists(dest, lim, rest, resource, n + 1))
    else Err(BadIf)
  }

  /** What `ParseIf` answers; no lists is an absent header. */
  function Parse(dest: Dest, lim: Limits, raw: Text): Result<seq<ConditionList>, IfError> {
    var header := TrimSpace(raw);
    if header == [] then Ok([])
    else if lim.bytes > 0 && |header| > lim.bytes then Err(IfTooLarge)
    else
      var r := ReadLists(dest, lim, header, None, 0);
      if r == Ok([]) then Err(BadIf) else r
  }

  // ---- The index loops.

  /** What is read from the front of a suffix, as the index where reading goes on. */
  ghost predicate Located<T>(header: Text, from: nat, r: Result<(T, Text), IfError>, res: Result<(T, nat), IfError>) {
    match r
    case Err(e) => res == Err(e)
    case Ok((x, rest)) => res.Ok? && res.value.0 == x && from < res.value.1 <= |header| && header[res.value.1..] == rest
  }

  method ParseIf(dest: Dest, raw: Text, lim: Limits)
    returns (res: Result<seq<ConditionList>, IfError>)
    ensures res == Parse(dest, lim, raw)
  {
    var header := TrimSpace(raw);
    if header == [] {
      return Ok([]);
    }
    if lim.bytes > 0 && |header| > lim.bytes {
      return Err(IfTooLarge);
    }
    var lists: seq<ConditionList> := [];
    var resource: Option<seq<Text>> := None;
    var i := 0;
    ghost var whole := ReadLists(dest, lim, header, None, 0);
    assert header[0..] == header;
    PrefixedNone(lists, whole);
    while i < |header|
      invariant 0 <= i <= |header|
      invariant whole == Prefixed(lists, ReadLists(dest, lim, header[i..], resource, |lists|))
      decreases |header| - i
    {
      assert header[i..][1..] == header[i + 1..];
      match header[i] {
        case ' ' => i := i + 1;
        case '\t' => i := i + 1;
        case '<' =>
          var tag := ParseTag(dest, header, i);
          if tag.Err? {
            return Err(tag.error);
          }
          resource := Some(tag.value.0);
          i := tag.value.1;
        case '(' =>
          var list := ParseList(header, i, lim);
          if list.Err? {
            return Err(list.error);
          }
          if |lists| >= lim.conditions {
            return Err(IfTooLarge);
          }
          var next := ConditionList(resource, list.value.0);
          PrefixedMore(lists, next, ReadLists(dest, lim, header[list.value.1..], resource, |lists| + 1));
          lists := lists + [next];
          i := list.value.1;
        case _ => return Err(BadIf);
      }
    }
    PrefixedNone(lists, whole);
    res := if lists == [] then Err(BadIf) else Ok(lists);
  }

  method ParseTag(dest: Dest, header: Text, i: nat) returns (res: Result<(seq<Text>, nat), IfError>)
    requires i < |header| && header[i] == '<'
    ensures Located(header, i, ReadTag(dest, header[i..]), res)
  {
    var end := IndexByte(header[i..], '>');
    if end < 0 {
      return Err(BadIf);
    }
    assert header[i..][1..end] == header[i + 1..i + end] && header[i..][end + 1..] == header[i + end + 1..];
    var segs := dest(header[i + 1..i + end]);
    if segs.Err? {
      return Err(BadIf);
    }
    return Ok((segs.value, i + end + 1));
  }

  method ParseList(header: Text, open: nat, lim: Limits) returns (res: Result<(seq<Condition>, nat), IfError>)
    requires open < |header|
    ensures Located(header, open, ReadConditions(header[open + 1..], lim, 0), res)
  {
    var cs: seq<Condition> := [];
    var i := open + 1;
    ghost var whole := ReadConditions(header[i..], lim, 0);
    ContinuedNone(whole);
    while i < |header|
      invariant open < i <= |header|
      invariant whole == Continued(cs, ReadConditions(header[i..], lim, |cs|))
      decreases |header| - i
    {
      if header[i] == ')' {
        ListCloses(header, open, i, cs, lim);
        return if |cs| == 0 then Err(BadIf) else Ok((cs, i + 1));
      }
      var more := TakeItem(header, i, lim, cs, whole);
      if more.Err? {
        return Err(more.error);
      }
      cs, i := more.value.0, more.value.1;
    }
    ListEnds(header, open, cs, lim);
    return Err(BadIf);
  }

  /** One round of the list loop short of its end, on what the list comes to. */
  method TakeItem(header: Text, i: nat, lim: Limits, cs: seq<Condition>,
                  ghost whole: Result<(seq<Condition>, Text), IfError>)
    returns (res: Result<(seq<Condition>, nat), IfError>)
    requires i < |header| && header[i] != ')'
    requires whole == Continued(cs, ReadConditions(header[i..], lim, |cs|))
    ensures res.Err? ==> whole == Err(res.error)
    ensures res.Ok? ==>
              && i < res.value.1 <= |header|
              && whole == Continued(res.value.0, ReadConditions(header[res.value.1..], lim, |res.value.0|))
  {
    var item := ParseItem(header, i, lim, |cs|);
    if item.Err? {
      return Err(item.error);
    }
    if item.value.0.None? {
      return Ok((cs, item.value.1));
    }
    var next := item.value.1;
    ghost var rest := ReadConditions(header[next..], lim, |cs| + 1);
    ContinuedMore(cs, item.value.0.value, rest);
    res := Ok((cs + [item.value.0.value], next));
  }

  /** One round of the list loop short of its end: a gap skipped, or a condition read. */
  method ParseItem(header: Text, i: nat, lim: Limits, count: nat)
    returns (res: Result<(Option<Condition>, nat), IfError>)
    requires i < |header| && header[i] != ')'
    ensures res.Ok? ==> i < res.value.1 <= |header|
    ensures ReadConditions(header[i..], lim, count) ==
            if res.Err? then Err(res.error)
            else if res.value.0.None? then ReadConditions(header[res.value.1..], lim, count)
            else Continued([res.value.0.value], ReadConditions(header[res.value.1..], lim, count + 1))
  {
    ConditionsFrom(header[i..], lim, count);
    if header[i] == ' ' || header[i] == '\t' {
      assert header[i..][1..] == header[i + 1..];
      return Ok((None, i + 1));
    }
    var c := ParseCondition(header, i, lim);
    if c.Err? {
      return Err(c.error);
    }
    if count >= lim.conditions {
      return Err(IfTooLarge);
    }
    return Ok((Some(c.value.0), c.value.1));
  }

  function Continued(cs: seq<Condition>, r: Result<(seq<Condition>, Text), IfError>)
    : Result<(seq<Condition>, Text), IfError>
  {
    match r
    case Err(e) => Err(e)
    case Ok((more, rest)) => Ok((cs + more, rest))
  }

  /** The reader's next step, by the byte it meets. */
  lemma ConditionsFrom(s: Text, lim: Limits, n: nat)
    requires s != []
    ensures Gap(s[0]) ==> ReadConditions(s, lim, n) == ReadConditions(s[1..], lim, n)
    ensures s[0] == ')' ==> ReadConditions(s, lim, n) == if n == 0 then Err(BadIf) else Ok(([], s[1..]))
    ensures !Gap(s[0]) && s[0] != ')' ==>
              ReadConditions(s, lim, n) ==
              match ReadCondition(s, lim)
              case Err(e) => Err(e)
              case Ok((c, rest)) => if n >= lim.conditions then Err(IfTooLarge)
                  else Continued([c], ReadConditions(rest, lim, n + 1))
  {
  }

  /** The end of a list that has conditions is the end of the group; an empty list is refused. */
  lemma ListCloses(header: Text, open: nat, i: nat, cs: seq<Condition>, lim: Limits)
    requires open < i < |header| && header[i] == ')'
    ensures Located(header, open, Continued(cs, ReadConditions(header[i..], lim, |cs|)),
                    if |cs| == 0 then Err(BadIf) else Ok((cs, i + 1)))
  {
    ConditionsFrom(header[i..], lim, |cs|);
    assert cs + [] == cs && header[i..][1..] == header[i + 1..];
  }

  lemma ContinuedNone(r: Result<(seq<Condition>, Text), IfError>)
    ensures Continued([], r) == r
  {
    if r.Ok? {
      assert [] + r.value.0 == r.value.0;
    }
  }

  lemma ContinuedMore(cs: seq<Condition>, c: Condition, r: Result<(seq<Condition>, Text), IfError>)
    ensures Continued(cs, Continued([c], r)) == Continued(cs + [c], r)
  {
    if r.Ok? {
      assert cs + ([c] + r.value.0) == cs + [c] + r.value.0;
    }
  }

  /** A header that ends inside a list is refused. */
  lemma ListEnds(header: Text, open: nat, cs: seq<Condition>, lim: Limits)
    ensures Located(header, open, Continued(cs, ReadConditions(header[|header|..], lim, |cs|)), Err(BadIf))
  {
  }

  method ParseCondition(header: Text, start: nat, lim: Limits) returns (res: Result<(Condition, nat), IfError>)
    requires start < |header|
    ensures Located(header, start, ReadCondition(header[start..], lim), res)
  {
    var neg, i := ParseNot(header, start);
    if i >= |header| {
      return Err(BadIf);
    }
    var term := ParseTerm(header, i, lim);
    res := if term.Err? then Err(term.error) else Ok((Condition(neg, term.value.0), term.value.1));
  }

  /** The optional negation; clients send it with and without a separator. */
  method ParseNot(header: Text, start: nat) returns (neg: bool, i: nat)
    requires start < |header|
    ensures start <= i <= |header| && neg == NotAhead(header[start..])
    ensures header[i..] == if neg then SkipGaps(header[start..][3..]) else header[start..]
  {
    var rest := header[start..];
    neg, i := false, start;
    if |rest| >= 3 && EqualFold(rest[..3], "Not") {
      if |rest| == 3 || rest[3] == ' ' || rest[3] == '\t' || rest[3] == '<' || rest[3] == '[' {
        neg, i := true, start + 3;
        assert rest[3..] == header[i..];
        while i < |header| && (header[i] == ' ' || header[i] == '\t')
          invariant start < i <= |header| && SkipGaps(header[i..]) == SkipGaps(rest[3..])
        {
          assert header[i..][1..] == header[i + 1..];
          i := i + 1;
        }
      }
    }
  }

  method ParseTerm(header: Text, i: nat, lim: Limits) returns (res: Result<(Term, nat), IfError>)
    requires i < |header|
    ensures Located(header, i, ReadTerm(header[i..], lim), res)
  {
    var s := header[i..];
    match header[i] {
      case '<' =>
        var end := IndexByte(s, '>');
        if end < 0 || end == 1 {
          return Err(BadIf);
        }
        if lim.nameBytes > 0 && end - 1 > lim.nameBytes {
          return Err(IfTooLarge);
        }
        assert s[end + 1..] == header[i + end + 1..];
        return Ok((Token(s[1..end]), i + end + 1));
      case '[' =>
        var end := IndexByte(s, ']');
        if end < 0 {
          return Err(BadIf);
        }
        var tag := ParseETag(s[1..end]);
        if tag.None? {
          return Err(BadIf);
        }
        assert s[end + 1..] == header[i + end + 1..];
        return Ok((Tag(tag.value), i + end + 1));
      case _ => return Err(BadIf);
    }
  }
}
