/** A printer for If headers, inverted by the reader, and what every accepted header is. */
module IfRoundTrip {
  import opened Octets
  import opened Text
  import opened DavPath
  import opened IfHeader

  /** How resource tags are read and printed. */
  datatype Paths = Paths(read: Dest, href: seq<Text> -> Text)

  function PrintTerm(t: Term): Text {
    match t
    case Token(token) => "<" + token + ">"
    case Tag(etag) => "[" + PrintETag(etag) + "]"
  }

  function PrintETag(e: ETag): Text {
    (if e.weak then "W/" else "") + "\"" + e.value + "\""
  }

  function PrintCondition(c: Condition): Text {
    (if c.not then "Not " else "") + PrintTerm(c.term)
  }

  function PrintConditions(cs: seq<Condition>): Text {
    if cs == [] then ")"
    else PrintCondition(cs[0]) + (if |cs| == 1 then "" else " ") + PrintConditions(cs[1..])
  }

  function PrintTag(p: Paths, resource: Option<seq<Text>>): Text {
    match resource
    case None => ""
    case Some(segs) => "<" + p.href(segs) + "> "
  }

  function PrintBody(cs: seq<Condition>): Text {
    "(" + PrintConditions(cs)
  }

  function PrintList(p: Paths, l: ConditionList): Text {
    PrintTag(p, l.resource) + PrintBody(l.conditions)
  }

  function PrintLists(p: Paths, ls: seq<ConditionList>): Text {
    if ls == [] then "" else PrintList(p, ls[0]) + (if |ls| == 1 then "" else " ") + PrintLists(p, ls[1..])
  }

  ghost predicate TermOk(t: Term, lim: Limits) {
    match t
    case Token(token) => token != [] && '>' !in token && (lim.nameBytes > 0 ==> |token| <= lim.nameBytes)
    case Tag(etag) => '"' !in etag.value && ']' !in etag.value
  }

  /** Segments whose printed path can stand in a tag and is read as those segments. */
  ghost predicate Readable(p: Paths, segs: seq<Text>) {
    p.read(p.href(segs)) == Ok(segs) && '>' !in p.href(segs)
  }

  ghost predicate ListOk(p: Paths, l: ConditionList, lim: Limits) {
    && 0 < |l.conditions| <= lim.conditions
    && (forall k :: 0 <= k < |l.conditions| ==> TermOk(l.conditions[k].term, lim))
    && (l.resource.Some? ==> Readable(p, l.resource.value))
  }

  /** The lists the rest of a header can mean under the last resource tag: no untagged list after a tagged one. */
  ghost predicate ListsOk(p: Paths, ls: seq<ConditionList>, lim: Limits, resource: Option<seq<Text>>) {
    && (forall k :: 0 <= k < |ls| ==> ListOk(p, ls[k], lim))
    && (forall k :: 0 <= k < |ls| && ls[k].resource.None? ==> TagBefore(ls, resource, k).None?)
  }

  /** The tag in force before the k-th list. */
  function TagBefore(ls: seq<ConditionList>, resource: Option<seq<Text>>, k: nat): Option<seq<Text>>
    requires k <= |ls|
  {
    if k == 0 then resource else ls[k - 1].resource
  }

  /** The headers the grammar can mean: bounded, and untagged lists before tagged ones. */
  ghost predicate WellFormed(p: Paths, ls: seq<ConditionList>, lim: Limits) {
    |ls| <= lim.conditions && ListsOk(p, ls, lim, None)
  }

  // ---- Reading what was printed.

  lemma ETagReadsBack(e: ETag)
    requires '"' !in e.value
    ensures ParseETag(PrintETag(e)) == Some(e)
  {
    var s := PrintETag(e);
    assert s[|s| - 1] == '"' && !Blank(s[0]);
    TrimsNothing(s);
    var q := "\"" + e.value + "\"";
    assert q[1..|q| - 1] == e.value;
    if e.weak {
      assert s == "W/" + q && s[..2] == "W/" && s[2..] == q;
    } else {
      assert s == q && s[0] == '"';
      assert s[..2][0] == '"';
    }
  }

  /** What stands between a bracket and the first close after it. */
  lemma Enclosed(open: Byte, inner: Text, close: Byte, rest: Text)
    requires open != close && close !in inner
    ensures var s := [open] + inner + [close] + rest;
            IndexByte(s, close) == |inner| + 1 && s[0] == open && s[1..|inner| + 1] == inner && s[|inner| + 2..] == rest
  {
    var s := [open] + inner + [close] + rest;
    assert s[..|inner| + 1] == [open] + inner;
    IndexIsFirst(s, close, |inner| + 1);
  }

  lemma TokenReadsBack(token: Text, lim: Limits, rest: Text)
    requires TermOk(Token(token), lim)
    ensures ReadTerm(['<'] + token + ['>'] + rest, lim) == Ok((Token(token), rest))
  {
    Enclosed('<', token, '>', rest);
  }

  lemma ETagTermReadsBack(etag: ETag, lim: Limits, rest: Text)
    requires TermOk(Tag(etag), lim)
    ensures ReadTerm(['['] + PrintETag(etag) + [']'] + rest, lim) == Ok((Tag(etag), rest))
  {
    assert ']' !in PrintETag(etag);
    Enclosed('[', PrintETag(etag), ']', rest);
    ETagReadsBack(etag);
  }

  lemma TermReadsBack(t: Term, lim: Limits, rest: Text)
    requires TermOk(t, lim)
    ensures ReadTerm(PrintTerm(t) + rest, lim) == Ok((t, rest))
  {
    match t
    case Token(token) => TokenReadsBack(token, lim, rest);
    case Tag(etag) => ETagTermReadsBack(etag, lim, rest);
  }

  lemma NotIsSeen(t: Text)
    requires t != [] && (t[0] == '<' || t[0] == '[')
    ensures NotAhead("Not " + t) && SkipGaps(("Not " + t)[3..]) == t && !NotAhead(t)
  {
    var s := "Not " + t;
    assert s[..3] == "Not" && s[3] == ' ' && s[3..] == " " + t && (" " + t)[1..] == t;
    assert SkipGaps(" " + t) == SkipGaps(t) == t;
    assert |t| >= 3 ==> t[..3][0] == t[0] && Lower(t[0]) != Lower('N');
  }

  lemma {:induction false} ConditionReadsBack(c: Condition, lim: Limits, rest: Text)
    requires TermOk(c.term, lim)
    ensures ReadCondition(PrintCondition(c) + rest, lim) == Ok((c, rest))
    ensures PrintCondition(c) != [] && PrintCondition(c)[0] in {'N', '<', '['}
  {
    var t := PrintTerm(c.term) + rest;
    assert PrintCondition(c) + rest == if c.not then "Not " + t else t;
    TermReadsBack(c.term, lim, rest);
    NotIsSeen(t);
  }

  lemma {:induction false} ConditionThen(c: Condition, lim: Limits, n: nat, after: Text)
    requires n < lim.conditions && TermOk(c.term, lim)
    ensures ReadConditions(PrintCondition(c) + after, lim, n) == Continued([c], ReadConditions(after, lim, n + 1))
  {
    ConditionReadsBack(c, lim, after);
  }

  lemma GapThen(lim: Limits, n: nat, after: Text)
    ensures ReadConditions(" " + after, lim, n) == ReadConditions(after, lim, n)
  {
    assert (" " + after)[1..] == after;
  }

  lemma {:induction false} ConditionStep(c: Condition, last: bool, lim: Limits, n: nat, rest: Text, after: Text)
    requires n < lim.conditions && TermOk(c.term, lim)
    ensures ReadConditions(PrintCondition(c) + (if last then "" else " ") + rest + after, lim, n)
            == Continued([c], ReadConditions(rest + after, lim, n + 1))
  {
    var gap: Text := if last then "" else " ";
    Associates(PrintCondition(c) + gap, rest, after);
    Associates(PrintCondition(c), gap, rest + after);
    ConditionThen(c, lim, n, gap + (rest + after));
    if last {
      assert gap + (rest + after) == rest + after;
    } else {
      GapThen(lim, n + 1, rest + after);
    }
  }

  /** Results that each add one condition to the next add up to the whole list. */
  lemma {:induction false} ChainContinued(cs: seq<Condition>, read: seq<Result<(seq<Condition>, Text), IfError>>,
          rest: Text)
    requires |read| == |cs| + 1 && read[|cs|] == Ok(([], rest))
    requires forall k :: 0 <= k < |cs| ==> read[k] == Continued([cs[k]], read[k + 1])
    ensures read[0] == Ok((cs, rest))
  {
    if cs != [] {
      assert read[1..][|cs| - 1] == read[|cs|];
      ChainContinued(cs[1..], read[1..], rest);
      assert read[0] == Continued([cs[0]], read[1]);
      assert [cs[0]] + cs[1..] == cs;
    }
  }

  lemma CloseReadsBack(lim: Limits, n: nat, rest: Text)
    requires n > 0
    ensures ReadConditions(")" + rest, lim, n) == Ok(([], rest))
  {
    assert (")" + rest)[1..] == rest;
  }

  lemma {:induction false} ConditionsReadBack(cs: seq<Condition>, lim: Limits, rest: Text)
    requires 0 < |cs| <= lim.conditions
    requires forall k :: 0 <= k < |cs| ==> TermOk(cs[k].term, lim)
    ensures ReadConditions(PrintConditions(cs) + rest, lim, 0) == Ok((cs, rest))
  {
    var read := seq(|cs| + 1, k requires 0 <= k <= |cs| => ReadConditions(PrintConditions(cs[k..]) + rest, lim, k));
    forall k | 0 <= k < |cs| ensures read[k] == Continued([cs[k]], read[k + 1]) {
      assert cs[k..][0] == cs[k] && cs[k..][1..] == cs[k + 1..];
      ConditionStep(cs[k], |cs[k..]| == 1, lim, k, PrintConditions(cs[k + 1..]), rest);
    }
    assert cs[|cs|..] == [] && cs[0..] == cs;
    CloseReadsBack(lim, |cs|, rest);
    ChainContinued(cs, read, rest);
  }

  lemma TagReadsBack(p: Paths, segs: seq<Text>, rest: Text)
    requires Readable(p, segs)
    ensures ReadTag(p.read, "<" + p.href(segs) + ">" + rest) == Ok((segs, rest))
  {
    Enclosed('<', p.href(segs), '>', rest);
  }

  /** The reader past one list's parenthesis. */
  lemma ListReadsBack(p: Paths, lim: Limits, l: ConditionList, rest: Text, n: nat)
    requires ListOk(p, l, lim) && n < lim.conditions
    ensures ReadLists(p.read, lim, PrintBody(l.conditions) + rest, l.resource, n)
            == Prefixed([l], ReadLists(p.read, lim, rest, l.resource, n + 1))
  {
    var s := PrintBody(l.conditions) + rest;
    ConditionsReadBack(l.conditions, lim, rest);
    DropFirst('(', PrintConditions(l.conditions), rest);
    Parenthesis(p.read, lim, s, l, rest, n);
  }

  lemma DropFirst(c: Byte, x: Text, rest: Text)
    ensures ([c] + x + rest)[0] == c && ([c] + x + rest)[1..] == x + rest
  {
  }

  lemma Parenthesis(dest: Dest, lim: Limits, s: Text, l: ConditionList, rest: Text, n: nat)
    requires s != [] && s[0] == '(' && n < lim.conditions && ReadConditions(s[1..], lim, 0) == Ok((l.conditions, rest))
    ensures ReadLists(dest, lim, s, l.resource, n) == Prefixed([l], ReadLists(dest, lim, rest, l.resource, n + 1))
  {
  }

  lemma TaggedReadsBack(p: Paths, lim: Limits, segs: seq<Text>, rest: Text, resource: Option<seq<Text>>, n: nat)
    requires Readable(p, segs)
    ensures ReadLists(p.read, lim, PrintTag(p, Some(segs)) + rest, resource, n)
        == ReadLists(p.read, lim, rest, Some(segs), n)
  {
    var s := PrintTag(p, Some(segs)) + rest;
    assert s == "<" + p.href(segs) + ">" + (" " + rest);
    TagReadsBack(p, segs, " " + rest);
    AfterTag(p.read, lim, s, segs, " " + rest, resource, n);
    GapReadsBack(p, lim, rest, Some(segs), n);
  }

  lemma AfterTag(dest: Dest, lim: Limits, s: Text, segs: seq<Text>, rest: Text, resource: Option<seq<Text>>, n: nat)
    requires s != [] && s[0] == '<' && ReadTag(dest, s) == Ok((segs, rest))
    ensures ReadLists(dest, lim, s, resource, n) == ReadLists(dest, lim, rest, Some(segs), n)
  {
  }

  lemma {:induction false} PrintedListReadsBack(p: Paths, lim: Limits, l: ConditionList, rest: Text,
          resource: Option<seq<Text>>, n: nat)
    requires ListOk(p, l, lim) && n < lim.conditions && (l.resource.None? ==> resource.None?)
    ensures ReadLists(p.read, lim, PrintList(p, l) + rest, resource, n)
            == Prefixed([l], ReadLists(p.read, lim, rest, l.resource, n + 1))
  {
    var body := PrintBody(l.conditions);
    ListReadsBack(p, lim, l, rest, n);
    Associates(PrintTag(p, l.resource), body, rest);
    match l.resource
    case None => assert [] + (body + rest) == body + rest;
    case Some(segs) => TaggedReadsBack(p, lim, segs, body + rest, resource, n);
  }

  lemma GapReadsBack(p: Paths, lim: Limits, rest: Text, resource: Option<seq<Text>>, n: nat)
    ensures ReadLists(p.read, lim, " " + rest, resource, n) == ReadLists(p.read, lim, rest, resource, n)
  {
    assert (" " + rest)[1..] == rest;
  }

  /** A printed header is read one list at a time. */
  lemma {:induction false} StepReads(p: Paths, lim: Limits, ls: seq<ConditionList>, resource: Option<seq<Text>>, n: nat)
    requires ls != [] && ListOk(p, ls[0], lim) && n < lim.conditions && (ls[0].resource.None? ==> resource.None?)
    ensures ReadLists(p.read, lim, PrintLists(p, ls), resource, n)
            == Prefixed([ls[0]], ReadLists(p.read, lim, PrintLists(p, ls[1..]), ls[0].resource, n + 1))
  {
    GappedReadsBack(p, lim, ls[0], |ls| == 1, PrintLists(p, ls[1..]), resource, n);
  }

  lemma {:induction false} GappedReadsBack(p: Paths, lim: Limits, l: ConditionList, last: bool, rest: Text,
          resource: Option<seq<Text>>,
          n: nat)
    requires ListOk(p, l, lim) && n < lim.conditions && (l.resource.None? ==> resource.None?)
    ensures ReadLists(p.read, lim, PrintList(p, l) + (if last then "" else " ") + rest, resource, n)
            == Prefixed([l], ReadLists(p.read, lim, rest, l.resource, n + 1))
  {
    var gap: Text := if last then "" else " ";
    Associates(PrintList(p, l), gap, rest);
    PrintedListReadsBack(p, lim, l, gap + rest, resource, n);
    if last {
      assert gap + rest == rest;
    } else {
      GapReadsBack(p, lim, rest, l.resource, n + 1);
    }
  }

  /** Results that each add one element to the next add up to the whole list. */
  lemma {:induction false} ChainReads<T, E>(xs: seq<T>, read: seq<Result<seq<T>, E>>)
    requires |read| == |xs| + 1 && read[|xs|] == Ok([])
    requires forall k :: 0 <= k < |xs| ==> read[k] == Prefixed([xs[k]], read[k + 1])
    ensures read[0] == Ok(xs)
  {
    if xs != [] {
      assert read[1..][|xs| - 1] == read[|xs|];
      ChainReads(xs[1..], read[1..]);
      assert read[0] == Prefixed([xs[0]], read[1]);
      assert [xs[0]] + xs[1..] == xs;
    }
  }

  lemma {:induction false} ListsReadBack(p: Paths, lim: Limits, ls: seq<ConditionList>)
    requires WellFormed(p, ls, lim)
    ensures ReadLists(p.read, lim, PrintLists(p, ls), None, 0) == Ok(ls)
  {
    var read := seq(|ls| + 1, k requires 0 <= k <= |ls| => ReadLists(p.read, lim, PrintLists(p, ls[k..]),
        TagBefore(ls, None, k), k));
    forall k | 0 <= k < |ls| ensures read[k] == Prefixed([ls[k]], read[k + 1]) {
      assert ls[k..][0] == ls[k] && ls[k..][1..] == ls[k + 1..];
      StepReads(p, lim, ls[k..], TagBefore(ls, None, k), k);
    }
    assert ls[|ls|..] == [] && ls[0..] == ls;
    ChainReads(ls, read);
  }

  lemma {:induction false} PrintedShape(p: Paths, ls: seq<ConditionList>)
    requires ls != []
    ensures var s := PrintLists(p, ls); s != [] && s[0] in {'<', '('} && s[|s| - 1] == ')'
  {
    if |ls| > 1 {
      PrintedShape(p, ls[1..]);
    } else {
      assert ls[1..] == [];
      EndsInParenthesis(ls[0].conditions);
    }
  }

  lemma {:induction false} EndsInParenthesis(cs: seq<Condition>)
    ensures var s := PrintConditions(cs); s != [] && s[|s| - 1] == ')'
  {
    if cs != [] {
      EndsInParenthesis(cs[1..]);
    }
  }

  /** The reader inverts the printer on every well-formed header that fits the byte bound. */
  lemma {:induction false} ParseInvertsPrint(p: Paths, lim: Limits, ls: seq<ConditionList>)
    requires ls != [] && WellFormed(p, ls, lim) && (lim.bytes > 0 ==> |PrintLists(p, ls)| <= lim.bytes)
    ensures Parse(p.read, lim, PrintLists(p, ls)) == Ok(ls)
  {
    PrintedShape(p, ls);
    TrimsNothing(PrintLists(p, ls));
    ListsReadBack(p, lim, ls);
  }

  // ---- Other spellings.

  ghost predicate Gaps(s: Text) {
    forall k :: 0 <= k < |s| ==> s[k] == ' ' || s[k] == '\t'
  }

  /** Spaces and tabs between terms, lists and tags mean nothing. */
  lemma {:induction false} GapsMeanNothing(p: Paths, lim: Limits, gap: Text, s: Text, resource: Option<seq<Text>>,
          n: nat)
    requires Gaps(gap)
    ensures ReadConditions(gap + s, lim, n) == ReadConditions(s, lim, n)
    ensures ReadLists(p.read, lim, gap + s, resource, n) == ReadLists(p.read, lim, s, resource, n)
    decreases |gap|
  {
    if gap == [] {
      assert gap + s == s;
    } else {
      assert (gap + s)[1..] == gap[1..] + s;
      GapsMeanNothing(p, lim, gap[1..], s, resource, n);
    }
  }

  lemma {:induction false} GapsAreSkipped(gap: Text, t: Text)
    requires Gaps(gap) && t != [] && t[0] != ' ' && t[0] != '\t'
    ensures SkipGaps(gap + t) == t
    decreases |gap|
  {
    if gap == [] {
      assert gap + t == t;
    } else {
      assert (gap + t)[1..] == gap[1..] + t;
      GapsAreSkipped(gap[1..], t);
    }
  }

  /** `Not` negates the term it stands before, in any case and at any distance. */
  lemma NotInAnyCase(word: Text, gap: Text, t: Term, lim: Limits, rest: Text)
    requires |word| == 3 && word[0] in "Nn" && word[1] in "Oo" && word[2] in "Tt" && Gaps(gap) && TermOk(t, lim)
    ensures ReadCondition(word + (gap + (PrintTerm(t) + rest)), lim) == Ok((Condition(true, t), rest))
    ensures ReadCondition(PrintTerm(t) + rest, lim) == Ok((Condition(false, t), rest))
  {
    var term := PrintTerm(t) + rest;
    TermOpens(t, rest);
    WordIsAhead(word, gap, term);
    TermReadsBack(t, lim, rest);
    NotIsSeen(term);
    NegatedIsRead(word + (gap + term), term, t, lim, rest);
    PlainIsRead(term, t, lim, rest);
  }

  lemma TermOpens(t: Term, rest: Text)
    ensures var s := PrintTerm(t) + rest; s != [] && (s[0] == '<' || s[0] == '[')
  {
  }

  lemma NegatedIsRead(s: Text, term: Text, t: Term, lim: Limits, rest: Text)
    requires NotAhead(s) && SkipGaps(s[3..]) == term && ReadTerm(term, lim) == Ok((t, rest))
    ensures ReadCondition(s, lim) == Ok((Condition(true, t), rest))
  {
  }

  lemma PlainIsRead(s: Text, t: Term, lim: Limits, rest: Text)
    requires !NotAhead(s) && ReadTerm(s, lim) == Ok((t, rest))
    ensures ReadCondition(s, lim) == Ok((Condition(false, t), rest))
  {
  }

  lemma WordIsAhead(word: Text, gap: Text, term: Text)
    requires |word| == 3 && word[0] in "Nn" && word[1] in "Oo" && word[2] in "Tt" && Gaps(gap)
    requires term != [] && (term[0] == '<' || term[0] == '[')
    ensures NotAhead(word + (gap + term)) && SkipGaps((word + (gap + term))[3..]) == term
  {
    var s := word + (gap + term);
    assert s[..3] == word && s[3..] == gap + term && s[3] == (gap + term)[0];
    assert (gap + term)[0] == if gap == [] then term[0] else gap[0];
    AnyCase(word);
    GapsAreSkipped(gap, term);
  }

  lemma AnyCase(word: Text)
    requires |word| == 3 && word[0] in "Nn" && word[1] in "Oo" && word[2] in "Tt"
    ensures EqualFold(word, "Not")
  {
    assert Lower(word[0]) == 'n' && Lower(word[1]) == 'o' && Lower(word[2]) == 't';
  }

  /** What is neither a term, a tag nor a list is refused where it stands. */
  lemma GarbageIsRefused(p: Paths, lim: Limits, s: Text, resource: Option<seq<Text>>, n: nat)
    requires s != [] && s[0] != ' ' && s[0] != '\t' && s[0] != '<'
    ensures s[0] != '(' ==> ReadLists(p.read, lim, s, resource, n) == Err(BadIf)
    ensures s[0] !in ")[Nn" || (s == ")" && n == 0) ==> ReadConditions(s, lim, n) == Err(BadIf)
  {
    if s[0] !in ")[Nn" {
      assert |s| >= 3 ==> Lower(s[..3][0]) != Lower('N');
    }
  }

  // ---- What is accepted.

  lemma ReadTermOk(s: Text, lim: Limits)
    requires ReadTerm(s, lim).Ok?
    ensures TermOk(ReadTerm(s, lim).value.0, lim)
  {
    if s[0] == '<' {
      var end := IndexByte(s, '>');
      assert forall k :: 1 <= k < end ==> s[k] == s[..end][k];
    } else {
      var end := IndexByte(s, ']');
      var raw := s[1..end];
      assert forall k :: 0 <= k < |raw| ==> raw[k] == s[..end][k + 1];
      TrimKeepsOut(raw, ']');
      var t := TrimSpace(raw);
      var u := if |t| >= 2 && t[..2] == "W/" then t[2..] else t;
      assert forall c :: c in u[1..|u| - 1] ==> c in u;
      assert forall c :: c in u ==> c in t;
    }
  }

  lemma {:induction false} TrimKeepsOut(s: Text, c: Byte)
    requires c !in s
    ensures c !in TrimSpace(s)
  {
    LeftKeepsOut(s, c);
    RightKeepsOut(TrimLeft(s), c);
  }

  lemma {:induction false} LeftKeepsOut(s: Text, c: Byte)
    requires c !in s
    ensures c !in TrimLeft(s)
  {
    if s != [] && Blank(s[0]) {
      LeftKeepsOut(s[1..], c);
    }
  }

  lemma {:induction false} RightKeepsOut(s: Text, c: Byte)
    requires c !in s
    ensures c !in TrimRight(s)
  {
    if s != [] && Blank(s[|s| - 1]) {
      RightKeepsOut(s[..|s| - 1], c);
    }
  }

  lemma {:induction false} ReadConditionsOk(s: Text, lim: Limits, n: nat)
    requires ReadConditions(s, lim, n).Ok?
    ensures var cs := ReadConditions(s, lim, n).value.0;
            && 0 < n + |cs| && (cs != [] ==> n + |cs| <= lim.conditions)
            && forall k :: 0 <= k < |cs| ==> TermOk(cs[k].term, lim)
    decreases |s|
  {
    if Gap(s[0]) {
      ReadConditionsOk(s[1..], lim, n);
    } else if s[0] != ')' {
      ReadTermOk(if NotAhead(s) then SkipGaps(s[3..]) else s, lim);
      ReadConditionsOk(ReadCondition(s, lim).value.1, lim, n + 1);
    }
  }

  /** Everything read as a destination could have been printed. */
  ghost predicate Sound(p: Paths) {
    forall raw :: p.read(raw).Ok? ==> Readable(p, p.read(raw).value)
  }

  /** Both the tag in force and what is read under it. */
  ghost predicate Accepted(p: Paths, r: Result<seq<ConditionList>, IfError>, lim: Limits,
                           resource: Option<seq<Text>>, n: nat)
  {
    r.Ok? ==> ListsOk(p, r.value, lim, resource) && (r.value != [] ==> n + |r.value| <= lim.conditions)
  }

  lemma {:induction false} ReadListsOk(p: Paths, lim: Limits, s: Text,
                                       resource: Option<seq<Text>>, n: nat)
    requires Sound(p) && (resource.Some? ==> Readable(p, resource.value))
    ensures Accepted(p, ReadLists(p.read, lim, s, resource, n), lim, resource, n)
    decreases |s|
  {
    if s == [] {
    } else if Gap(s[0]) {
      ReadListsOk(p, lim, s[1..], resource, n);
    } else if s[0] == '<' {
      var tag := ReadTag(p.read, s);
      if tag.Ok? {
        assert tag.value.0 == p.read(s[1..IndexByte(s, '>')]).value;
        ReadListsOk(p, lim, tag.value.1, Some(tag.value.0), n);
        var r := ReadLists(p.read, lim, tag.value.1, Some(tag.value.0), n);
        if r.Ok? {
          StillOk(p, r.value, lim, Some(tag.value.0), resource);
        }
      }
    } else if s[0] == '(' {
      var read := ReadConditions(s[1..], lim, 0);
      if read.Ok? && n < lim.conditions {
        ReadConditionsOk(s[1..], lim, 0);
        ReadListsOk(p, lim, read.value.1, resource, n + 1);
        FirstListAccepted(p, ConditionList(resource, read.value.0),
            ReadLists(p.read, lim, read.value.1, resource, n + 1), lim, n);
      }
    }
  }

  lemma FirstListAccepted(p: Paths, l: ConditionList, more: Result<seq<ConditionList>, IfError>, lim: Limits, n: nat)
    requires ListOk(p, l, lim) && n < lim.conditions && Accepted(p, more, lim, l.resource, n + 1)
    ensures Accepted(p, Prefixed([l], more), lim, l.resource, n)
  {
    if more.Ok? {
      FirstListOk(p, l, more.value, lim);
    }
  }

  lemma StillOk(p: Paths, ls: seq<ConditionList>, lim: Limits, tag: Option<seq<Text>>, resource: Option<seq<Text>>)
    requires tag.Some? && ListsOk(p, ls, lim, tag)
    ensures ListsOk(p, ls, lim, resource)
  {
  }

  lemma FirstListOk(p: Paths, l: ConditionList, more: seq<ConditionList>, lim: Limits)
    requires ListOk(p, l, lim) && ListsOk(p, more, lim, l.resource)
    ensures ListsOk(p, [l] + more, lim, l.resource)
  {
    forall k | 0 <= k < |more| + 1 && ([l] + more)[k].resource.None?
      ensures TagBefore([l] + more, l.resource, k).None?
    {
      if k > 0 {
        assert ([l] + more)[k] == more[k - 1];
        assert TagBefore([l] + more, l.resource, k) == TagBefore(more, l.resource, k - 1);
      }
    }
  }

  /** Whatever is accepted is well formed, so what the server holds can be printed and read again unchanged. */
  lemma {:induction false} AcceptedIsWellFormed(p: Paths, lim: Limits, raw: Text)
    requires Sound(p) && Parse(p.read, lim, raw).Ok?
    ensures var ls := Parse(p.read, lim, raw).value;
            && (ls == [] <==> TrimSpace(raw) == [])
            && (ls != [] ==> WellFormed(p, ls, lim))
            && (ls != [] && (lim.bytes > 0 ==> |PrintLists(p, ls)| <= lim.bytes) ==>
                Parse(p.read, lim, PrintLists(p, ls)) == Ok(ls))
  {
    if TrimSpace(raw) != [] {
      ReadListsOk(p, lim, TrimSpace(raw), None, 0);
      var ls := Parse(p.read, lim, raw).value;
      if lim.bytes > 0 ==> |PrintLists(p, ls)| <= lim.bytes {
        ParseInvertsPrint(p, lim, ls);
      }
    }
  }

  // ---- The destinations of section 10.3 of RFC 4918, on the request's own host.

  function On(norm: seq<Text> -> seq<Text>, host: Text): Paths {
    Paths(At(norm, host), (segs: seq<Text>) => Href(segs, false))
  }

  /** The printable resource tags are the paths whose names SplitPath keeps as they are. */
  lemma ReadableMeansNameable(norm: seq<Text> -> seq<Text>, host: Text, segs: seq<Text>)
    requires Normaliser(norm)
    ensures Readable(On(norm, host), segs) <==> Nameable(norm, segs)
  {
    HrefBytes(segs, false);
    assert '>' !in Href(segs, false);
    if Nameable(norm, segs) {
      DestinationReadsHref(norm, segs, false, host);
    }
    if Readable(On(norm, host), segs) {
      DestinationNames(norm, Href(segs, false), host);
    }
  }

  lemma {:induction false} DestinationNames(norm: seq<Text> -> seq<Text>, raw: Text, host: Text)
    requires Normaliser(norm) && Destination(norm, raw, host).Ok?
    ensures Nameable(norm, Destination(norm, raw, host).value)
  {
    AcceptedIsFixedPoint(norm, BeforeQuery(PathOf(raw, host).value), false);
  }

  lemma {:induction false} DestinationsAreSound(norm: seq<Text> -> seq<Text>, host: Text)
    requires Normaliser(norm)
    ensures Sound(On(norm, host))
  {
    var p := On(norm, host);
    forall raw: Text | p.read(raw).Ok? ensures Readable(p, p.read(raw).value) {
      DestinationNames(norm, raw, host);
      ReadableMeansNameable(norm, host, p.read(raw).value);
    }
  }
}
