/** PROPPATCH bodies, section 9.2 of RFC 4918: the parser and what it makes of any document (dav/proppatch.go). */
module PropPatch {
  import opened Octets

  datatype Name = Name(space: string, local: string)

  datatype Op = Set | Remove

  datatype Instruction = Instruction(op: Op, name: Name, value: string)

  datatype Token = Start(name: Name) | EndTag | CharData(text: string)

  datatype ParseError = TooManyProperties

  const DAV: string := "DAV:"

  const SET := Name(DAV, "set")

  const REMOVE := Name(DAV, "remove")

  const PROP := Name(DAV, "prop")

  // ---- The token machine.

  /** The enclosing operation, the open wrapper, the property being read and how deep inside it. */
  datatype State = State(done: seq<Instruction>, op: Option<Op>, inProp: bool, current: Option<Name>, depth: nat,
      text: string)

  function Opened(s: State, name: Name, limit: int): Result<State, ParseError> {
    if s.current.Some? then Ok(s.(depth := s.depth + 1))
    else if s.inProp then if |s.done| >= limit then Err(TooManyProperties)
        else Ok(s.(current := Some(name), text := ""))
    else if s.op.Some? && name == PROP then Ok(s.(inProp := true))
    else if s.op.None? && name == SET then Ok(s.(op := Some(Set)))
    else if s.op.None? && name == REMOVE then Ok(s.(op := Some(Remove)))
    else Ok(s)
  }

  function Closed(s: State): State
    requires Sound(s)
  {
    if s.current.Some? && s.depth > 0 then s.(depth := s.depth - 1)
    else if s.current.Some? then s.(done := s.done + [Instruction(s.op.value, s.current.value, s.text)],
        current := None)
    else if s.inProp then s.(inProp := false)
    else s.(op := None)
  }

  /** A property is only ever open inside a wrapper, and a wrapper inside an operation. */
  predicate Sound(s: State) {
    (s.current.Some? ==> s.inProp) && (s.inProp ==> s.op.Some?)
  }

  type Reading = s: State | Sound(s) witness State([], None, false, None, 0, "")

  function Read(s: Reading, t: Token, limit: int): Result<Reading, ParseError> {
    match t
    case Start(name) => (match Opened(s, name, limit) case Ok(s') => Ok(s') case Err(e) => Err(e))
    case EndTag => Ok(Closed(s))
    case CharData(text) => Ok(if s.current.Some? then s.(text := s.text + text) else s)
  }

  function ReadAll(r: Result<Reading, ParseError>, ts: seq<Token>, limit: int): Result<Reading, ParseError>
    decreases |ts|
  {
    if ts == [] || r.Err? then r else ReadAll(Read(r.value, ts[0], limit), ts[1..], limit)
  }

  function Begin(): Reading {
    State([], None, false, None, 0, "")
  }

  /** `ParsePropPatch` over a scanned body. */
  method ParsePropPatch(ts: seq<Token>, limit: int) returns (r: Result<seq<Instruction>, ParseError>)
    ensures match ReadAll(Ok(Begin()), ts, limit) case Ok(s) => r == Ok(s.done) case Err(e) => r == Err(e)
  {
    var done: seq<Instruction> := [];
    var op: Option<Op> := None;
    var inProp := false;
    var current: Option<Name> := None;
    var depth: nat := 0;
    var text := "";
    assert ts[0..] == ts;
    for i := 0 to |ts|
      invariant Sound(State(done, op, inProp, current, depth, text))
      invariant ReadAll(Ok(Begin()), ts, limit)
          == ReadAll(Ok(State(done, op, inProp, current, depth, text)), ts[i..], limit)
    {
      assert ts[i..][1..] == ts[i + 1..];
      match ts[i] {
        case Start(name) =>
          if current.Some? {
            depth := depth + 1;
          } else if inProp {
            if |done| >= limit {
              return Err(TooManyProperties);
            }
            current, text := Some(name), "";
          } else if op.Some? && name == PROP {
            inProp := true;
          } else if op.None? && name == SET {
            op := Some(Set);
          } else if op.None? && name == REMOVE {
            op := Some(Remove);
          }
        case EndTag =>
          if current.Some? && depth > 0 {
            depth := depth - 1;
          } else if current.Some? {
            done := done + [Instruction(op.value, current.value, text)];
            current := None;
          } else if inProp {
            inProp := false;
          } else if op.Some? {
            op := None;
          }
        case CharData(more) =>
          if current.Some? {
            text := text + more;
          }
      }
    }
    return Ok(done);
  }

  // ---- Documents.

  /** The content of an element: text and elements, in order. */
  datatype Forest = Nothing | Chars(text: string, rest: Forest) | Element(name: Name, kids: Forest, rest: Forest)

  function Tokens(f: Forest): seq<Token> {
    match f
    case Nothing => []
    case Chars(text, rest) => [CharData(text)] + Tokens(rest)
    case Element(name, kids, rest) => [Start(name)] + Tokens(kids) + [EndTag] + Tokens(rest)
  }

  /** All text at any depth. */
  function AllText(f: Forest): string {
    match f
    case Nothing => ""
    case Chars(text, rest) => text + AllText(rest)
    case Element(_, kids, rest) => AllText(kids) + AllText(rest)
  }

  /** The properties of one wrapper. */
  function OfWrapper(op: Op, f: Forest): seq<Instruction> {
    match f
    case Nothing => []
    case Chars(_, rest) => OfWrapper(op, rest)
    case Element(name, kids, rest) => [Instruction(op, name, AllText(kids))] + OfWrapper(op, rest)
  }

  /** A set or remove holds nothing but prop wrappers, apart from text. */
  predicate IsSection(f: Forest) {
    match f
    case Nothing => true
    case Chars(_, rest) => IsSection(rest)
    case Element(name, _, rest) => name == PROP && IsSection(rest)
  }

  /** The root holds nothing but set and remove. */
  predicate IsUpdate(f: Forest) {
    match f
    case Nothing => true
    case Chars(_, rest) => IsUpdate(rest)
    case Element(name, kids, rest) => (name == SET || name == REMOVE) && IsSection(kids) && IsUpdate(rest)
  }

  function OpOf(name: Name): Op {
    if name == SET then Set else Remove
  }

  /** What a set or remove asks for: the properties of its wrappers, any other element ignored. */
  function OfSection(op: Op, f: Forest): seq<Instruction> {
    match f
    case Nothing => []
    case Chars(_, rest) => OfSection(op, rest)
    case Element(name, kids, rest) => (if name == PROP then OfWrapper(op, kids) else []) + OfSection(op, rest)
  }

  /** What a body asks for, in document order: its sets and removes, any other element ignored. */
  function OfUpdate(f: Forest): seq<Instruction> {
    match f
    case Nothing => []
    case Chars(_, rest) => OfUpdate(rest)
    case Element(name, kids, rest) =>
      (if name == SET || name == REMOVE then OfSection(OpOf(name), kids) else []) + OfUpdate(rest)
  }

  // ---- What the machine makes of any document.

  /** Outside a set or remove every element but those two is looked through. */
  function SeenOutside(f: Forest): seq<Instruction>
    decreases f
  {
    match f
    case Nothing => []
    case Chars(_, rest) => SeenOutside(rest)
    case Element(name, kids, rest) =>
      (if name == SET || name == REMOVE then SeenInside(OpOf(name), kids).0 else SeenOutside(kids)) + SeenOutside(rest)
  }

  /** Inside, an element that is no wrapper is looked through too, and its end tag ends the set or remove. */
  function SeenInside(op: Op, f: Forest): (seq<Instruction>, bool)
    decreases f
  {
    match f
    case Nothing => ([], true)
    case Chars(_, rest) => SeenInside(op, rest)
    case Element(name, kids, rest) =>
      if name == PROP then
        var more := SeenInside(op, rest);
        (OfWrapper(op, kids) + more.0, more.1)
      else
        (SeenInside(op, kids).0 + SeenOutside(rest), false)
  }

  lemma {:induction false} ReadInParts(r: Result<Reading, ParseError>, a: seq<Token>, b: seq<Token>, limit: int)
    ensures ReadAll(r, a + b, limit) == ReadAll(ReadAll(r, a, limit), b, limit)
    decreases |a|
  {
    if a == [] || r.Err? {
      assert a == [] ==> a + b == b;
    } else {
      assert (a + b)[1..] == a[1..] + b;
      ReadInParts(Read(r.value, a[0], limit), a[1..], b, limit);
    }
  }

  /** Reading an element is its start, its content, its end, and what follows. */
  lemma ReadElement(s: Reading, name: Name, kids: Forest, rest: Forest, limit: int)
    ensures ReadAll(Ok(s), Tokens(Element(name, kids, rest)), limit)
            == ReadAll(ReadAll(ReadAll(Read(s, Start(name), limit), Tokens(kids), limit), [EndTag], limit),
                Tokens(rest), limit)
  {
    var k, e, r := Tokens(kids), [EndTag], Tokens(rest);
    assert Tokens(Element(name, kids, rest)) == [Start(name)] + (k + (e + r));
    assert ([Start(name)] + (k + (e + r)))[1..] == k + (e + r);
    ReadInParts(Read(s, Start(name), limit), k, e + r, limit);
    ReadInParts(ReadAll(Read(s, Start(name), limit), k, limit), e, r, limit);
  }

  lemma ReadChars(s: Reading, text: string, rest: Forest, limit: int)
    ensures ReadAll(Ok(s), Tokens(Chars(text, rest)), limit)
        == ReadAll(Read(s, CharData(text), limit), Tokens(rest), limit)
  {
    assert ([CharData(text)] + Tokens(rest))[1..] == Tokens(rest);
  }

  lemma ReadEnd(s: Reading, limit: int)
    ensures ReadAll(Ok(s), [EndTag], limit) == Ok(Closed(s))
  {
    assert [EndTag][1..] == [];
  }

  /** Inside a property only text counts, at any depth. */
  lemma {:induction false} ReadValue(s: Reading, f: Forest, limit: int)
    requires s.current.Some?
    ensures ReadAll(Ok(s), Tokens(f), limit) == Ok(s.(text := s.text + AllText(f)))
    decreases f
  {
    match f
    case Nothing => assert s.text + "" == s.text;
    case Chars(text, rest) =>
      var s1 := s.(text := s.text + text);
      ReadChars(s, text, rest, limit);
      ReadValue(s1, rest, limit);
      assert s.text + (text + AllText(rest)) == s.text + text + AllText(rest);
    case Element(name, kids, rest) =>
      ReadElement(s, name, kids, rest, limit);
      var s1 := s.(depth := s.depth + 1);
      var s2 := s1.(text := s.text + AllText(kids));
      ReadValue(s1, kids, limit);
      ReadEnd(s2, limit);
      ReadValue(s2.(depth := s.depth), rest, limit);
      assert s.text + (AllText(kids) + AllText(rest)) == s.text + AllText(kids) + AllText(rest);
  }

  /** The state after the instructions `more`, or the refusal of the first past the limit; text is left over. */
  ghost predicate Extends(r: Result<Reading, ParseError>, s: Reading, more: seq<Instruction>, limit: int) {
    if |s.done| + |more| > limit && more != [] then r == Err(TooManyProperties)
    else r.Ok? && r.value == s.(done := s.done + more, text := r.value.text)
  }

  lemma ExtendsTwice(s: Reading, r1: Result<Reading, ParseError>, a: seq<Instruction>, r2: Result<Reading, ParseError>,
                     b: seq<Instruction>, limit: int)
    requires Extends(r1, s, a, limit)
    requires r1.Err? ==> r2 == r1
    requires r1.Ok? ==> Extends(r2, r1.value, b, limit)
    ensures Extends(r2, s, a + b, limit)
  {
    if r1.Ok? {
      assert s.done + a + b == s.done + (a + b);
    }
  }

  lemma ErrStays(e: ParseError, ts: seq<Token>, limit: int)
    ensures ReadAll(Err(e), ts, limit) == Err(e)
  {
  }

  /** One property: its start, its value, its end. */
  lemma ReadProperty(s: Reading, name: Name, kids: Forest, limit: int)
    requires s.inProp && s.current.None? && s.depth == 0
    ensures Extends(ReadAll(ReadAll(Read(s, Start(name), limit), Tokens(kids), limit), [EndTag], limit), s,
                    [Instruction(s.op.value, name, AllText(kids))], limit)
  {
    if |s.done| < limit {
      var s1 := s.(current := Some(name), text := "");
      ReadValue(s1, kids, limit);
      assert "" + AllText(kids) == AllText(kids);
      ReadEnd(s1.(text := AllText(kids)), limit);
    } else {
      ErrStays(TooManyProperties, Tokens(kids), limit);
    }
  }

  lemma {:induction false} ReadWrapper(s: Reading, f: Forest, limit: int)
    requires s.inProp && s.current.None? && s.depth == 0
    ensures Extends(ReadAll(Ok(s), Tokens(f), limit), s, OfWrapper(s.op.value, f), limit)
    decreases f
  {
    match f
    case Nothing => assert s.done + [] == s.done;
    case Chars(text, rest) =>
      ReadChars(s, text, rest, limit);
      ReadWrapper(s, rest, limit);
    case Element(name, kids, rest) =>
      ReadElement(s, name, kids, rest, limit);
      ReadProperty(s, name, kids, limit);
      var r1 := ReadAll(ReadAll(Read(s, Start(name), limit), Tokens(kids), limit), [EndTag], limit);
      if r1.Ok? {
        ReadWrapper(r1.value, rest, limit);
      }
      ExtendsTwice(s, r1, [Instruction(s.op.value, name, AllText(kids))], ReadAll(r1, Tokens(rest), limit),
          OfWrapper(s.op.value, rest), limit);
  }

  /** A bracketed part: entered by a start, read as far as `inside`, left by an end. */
  lemma Bracket(s: Reading, from: Reading, inside: Reading, kids: Forest, more: seq<Instruction>, limit: int)
    requires s.current.None? && inside.current.None? && s.depth == 0 && inside.depth == 0 && inside.done == s.done
    requires Closed(inside) == s.(text := inside.text)
    requires Extends(ReadAll(Ok(from), Tokens(kids), limit), inside, more, limit)
    ensures Extends(ReadAll(ReadAll(Ok(from), Tokens(kids), limit), [EndTag], limit), s, more, limit)
  {
    var r := ReadAll(Ok(from), Tokens(kids), limit);
    if r.Ok? {
      ReadEnd(r.value, limit);
    } else {
      ErrStays(r.error, [EndTag], limit);
    }
  }

  predicate Outside(s: Reading) {
    s.op.None? && s.current.None? && s.depth == 0
  }

  predicate Inside(s: Reading, op: Op) {
    s.op == Some(op) && !s.inProp && s.current.None? && s.depth == 0
  }

  lemma {:induction false} ReadOutside(s: Reading, f: Forest, limit: int)
    requires Outside(s)
    ensures Extends(ReadAll(Ok(s), Tokens(f), limit), s, SeenOutside(f), limit)
    decreases f, 0
  {
    match f
    case Nothing => assert s.done + [] == s.done;
    case Chars(text, rest) =>
      ReadChars(s, text, rest, limit);
      ReadOutside(s, rest, limit);
    case Element(name, kids, rest) =>
      ReadElement(s, name, kids, rest, limit);
      var r1 := ReadAll(ReadAll(Read(s, Start(name), limit), Tokens(kids), limit), [EndTag], limit);
      var seen := if name == SET || name == REMOVE then SeenInside(OpOf(name), kids).0 else SeenOutside(kids);
      if name == SET || name == REMOVE {
        ReadOperation(s, OpOf(name), kids, limit);
      } else {
        ReadOutside(s, kids, limit);
        Bracket(s, s, s, kids, SeenOutside(kids), limit);
      }
      if r1.Ok? {
        ReadOutside(r1.value, rest, limit);
      } else {
        ErrStays(r1.error, Tokens(rest), limit);
      }
      ExtendsTwice(s, r1, seen, ReadAll(r1, Tokens(rest), limit), SeenOutside(rest), limit);
  }

  /** A whole set or remove, whichever end tag ends it. */
  lemma ReadOperation(s: Reading, op: Op, kids: Forest, limit: int)
    requires Outside(s)
    ensures Extends(ReadAll(ReadAll(Ok(s.(op := Some(op))), Tokens(kids), limit), [EndTag], limit), s,
                    SeenInside(op, kids).0, limit)
    decreases kids, 1
  {
    var from := s.(op := Some(op));
    ReadInside(from, op, kids, limit);
    Bracket(s, from, if SeenInside(op, kids).1 then from else s, kids, SeenInside(op, kids).0, limit);
  }

  lemma {:induction false} ReadInside(s: Reading, op: Op, f: Forest, limit: int)
    requires Inside(s, op)
    ensures var seen := SeenInside(op, f);
            Extends(ReadAll(Ok(s), Tokens(f), limit), if seen.1 then s else s.(op := None), seen.0, limit)
    decreases f, 0
  {
    match f
    case Nothing => assert s.done + [] == s.done;
    case Chars(text, rest) =>
      ReadChars(s, text, rest, limit);
      ReadInside(s, op, rest, limit);
    case Element(name, kids, rest) =>
      ReadElement(s, name, kids, rest, limit);
      if name == PROP {
        ReadPropElement(s, op, kids, limit);
        var r1 := ReadAll(ReadAll(Ok(s.(inProp := true)), Tokens(kids), limit), [EndTag], limit);
        ReadAfterProp(s, op, r1, kids, rest, limit);
      } else {
        var r1 := ReadAll(ReadAll(Ok(s), Tokens(kids), limit), [EndTag], limit);
        var shut: Reading := s.(op := None);
        ReadInside(s, op, kids, limit);
        Bracket(shut, s, if SeenInside(op, kids).1 then s else shut, kids, SeenInside(op, kids).0, limit);
        if r1.Ok? {
          ReadOutside(r1.value, rest, limit);
        } else {
          ErrStays(r1.error, Tokens(rest), limit);
        }
        ExtendsTwice(shut, r1, SeenInside(op, kids).0, ReadAll(r1, Tokens(rest), limit), SeenOutside(rest), limit);
      }
  }

  lemma ReadPropElement(s: Reading, op: Op, kids: Forest, limit: int)
    requires Inside(s, op)
    ensures Extends(ReadAll(ReadAll(Ok(s.(inProp := true)), Tokens(kids), limit), [EndTag], limit), s,
                    OfWrapper(op, kids), limit)
  {
    var inside := s.(inProp := true);
    ReadWrapper(inside, kids, limit);
    Bracket(s, inside, inside, kids, OfWrapper(op, kids), limit);
  }

  lemma ReadAfterProp(s: Reading, op: Op, r1: Result<Reading, ParseError>, kids: Forest, rest: Forest, limit: int)
    requires Inside(s, op) && Extends(r1, s, OfWrapper(op, kids), limit)
    ensures var more := SeenInside(op, rest);
            Extends(ReadAll(r1, Tokens(rest), limit), if more.1 then s else s.(op := None),
                    OfWrapper(op, kids) + more.0, limit)
    decreases rest, 1
  {
    var more := SeenInside(op, rest);
    var base: Reading := if more.1 then s else s.(op := None);
    if r1.Ok? {
      ReadInside(r1.value, op, rest, limit);
      var r1': Result<Reading, ParseError> := Ok(if more.1 then r1.value else r1.value.(op := None));
      ExtendsTwice(base, r1', OfWrapper(op, kids), ReadAll(r1, Tokens(rest), limit), more.0, limit);
    } else {
      ErrStays(r1.error, Tokens(rest), limit);
      ExtendsTwice(base, r1, OfWrapper(op, kids), r1, more.0, limit);
    }
  }

  /** The document whose root element holds `f`. */
  function Document(root: Name, f: Forest): seq<Token> {
    Tokens(Element(root, f, Nothing))
  }

  /** The instructions of an accepted body, or the refusal of the first past the limit. */
  ghost predicate Yields(r: Result<Reading, ParseError>, instructions: seq<Instruction>, limit: int) {
    if instructions != [] && |instructions| > limit then r == Err(TooManyProperties)
    else r.Ok? && r.value.done == instructions
  }

  /** Every document whatever, under any root, is read as what the machine sees of it. */
  lemma DocumentIsRead(root: Name, f: Forest, limit: int)
    ensures Yields(ReadAll(Ok(Begin()), Document(root, f), limit), SeenOutside(Element(root, f, Nothing)), limit)
    ensures root != SET && root != REMOVE ==> SeenOutside(Element(root, f, Nothing)) == SeenOutside(f)
  {
    var all := Element(root, f, Nothing);
    ReadOutside(Begin(), all, limit);
    assert Begin().done + SeenOutside(all) == SeenOutside(all);
    assert root != SET && root != REMOVE ==> SeenOutside(all) == SeenOutside(f) + SeenOutside(Nothing);
  }

  // ---- When that is what the document asks for.

  lemma {:induction false} SectionIsSeen(op: Op, f: Forest)
    requires IsSection(f)
    ensures SeenInside(op, f) == (OfSection(op, f), true)
    decreases f
  {
    match f
    case Nothing =>
    case Chars(_, rest) => SectionIsSeen(op, rest);
    case Element(_, _, rest) => SectionIsSeen(op, rest);
  }

  lemma {:induction false} UpdateIsSeen(f: Forest)
    requires IsUpdate(f)
    ensures SeenOutside(f) == OfUpdate(f)
    decreases f
  {
    match f
    case Nothing =>
    case Chars(_, rest) => UpdateIsSeen(rest);
    case Element(name, kids, rest) =>
      SectionIsSeen(OpOf(name), kids);
      UpdateIsSeen(rest);
  }

  /** Every body of the grammar is read as its instructions in document order, or refused past the limit. */
  lemma GrammarIsRead(root: Name, f: Forest, limit: int)
    requires IsUpdate(f) && root != SET && root != REMOVE
    ensures Yields(ReadAll(Ok(Begin()), Document(root, f), limit), OfUpdate(f), limit)
  {
    DocumentIsRead(root, f, limit);
    UpdateIsSeen(f);
  }

  /** No set, remove or wrapper at any depth. */
  predicate Inert(f: Forest) {
    match f
    case Nothing => true
    case Chars(_, rest) => Inert(rest)
    case Element(name, kids, rest) => name != SET && name != REMOVE && name != PROP && Inert(kids) && Inert(rest)
  }

  /** No set or remove at any depth. */
  predicate Quiet(f: Forest) {
    match f
    case Nothing => true
    case Chars(_, rest) => Quiet(rest)
    case Element(name, kids, rest) => name != SET && name != REMOVE && Quiet(kids) && Quiet(rest)
  }

  /**
   A set or remove with unknown elements in it, anywhere. The unknown hold no wrapper and no set or
   remove; nor do, once there was one, the wrappers behind it.
   */
  predicate IsLoose(f: Forest, before: bool) {
    match f
    case Nothing => true
    case Chars(_, rest) => IsLoose(rest, before)
    case Element(name, kids, rest) =>
      if name == PROP then (before || Quiet(kids)) && IsLoose(rest, before)
      else name != SET && name != REMOVE && Inert(kids) && IsLoose(rest, false)
  }

  /** A body with unknown elements beside and inside its sets and removes. */
  predicate IsExtended(f: Forest) {
    match f
    case Nothing => true
    case Chars(_, rest) => IsExtended(rest)
    case Element(name, kids, rest) =>
      (if name == SET || name == REMOVE then IsLoose(kids, true) else Quiet(kids)) && IsExtended(rest)
  }

  /** A wrapper with a property in it comes after an unknown element. */
  predicate IsLate(f: Forest, before: bool) {
    match f
    case Nothing => false
    case Chars(_, rest) => IsLate(rest, before)
    case Element(name, kids, rest) =>
      if name == PROP then (!before && HoldsElement(kids)) || IsLate(rest, before) else IsLate(rest, false)
  }

  predicate HoldsElement(f: Forest) {
    match f
    case Nothing => false
    case Chars(_, rest) => HoldsElement(rest)
    case Element(_, _, _) => true
  }

  predicate SomeLate(f: Forest) {
    match f
    case Nothing => false
    case Chars(_, rest) => SomeLate(rest)
    case Element(name, kids, rest) => ((name == SET || name == REMOVE) && IsLate(kids, true)) || SomeLate(rest)
  }

  lemma {:induction false} QuietIsUnseen(f: Forest)
    requires Quiet(f)
    ensures SeenOutside(f) == []
    decreases f
  {
    match f
    case Nothing =>
    case Chars(_, rest) => QuietIsUnseen(rest);
    case Element(_, kids, rest) =>
      QuietIsUnseen(kids);
      QuietIsUnseen(rest);
  }

  lemma {:induction false} InertIsUnseen(op: Op, f: Forest)
    requires Inert(f)
    ensures SeenInside(op, f).0 == [] && Quiet(f)
    decreases f
  {
    match f
    case Nothing =>
    case Chars(_, rest) => InertIsUnseen(op, rest);
    case Element(_, kids, rest) =>
      InertIsUnseen(op, kids);
      InertIsUnseen(op, rest);
      QuietIsUnseen(rest);
  }

  lemma {:induction false} WrapperHolds(op: Op, f: Forest)
    ensures OfWrapper(op, f) != [] <==> HoldsElement(f)
    decreases f
  {
    match f
    case Nothing =>
    case Chars(_, rest) => WrapperHolds(op, rest);
    case Element(_, _, _) =>
  }

  /** Behind an unknown element nothing is seen, and nothing was asked for exactly when nothing is late. */
  lemma {:induction false} BehindIsUnseen(op: Op, f: Forest)
    requires IsLoose(f, false)
    ensures SeenOutside(f) == [] && (OfSection(op, f) == [] <==> !IsLate(f, false))
    decreases f
  {
    match f
    case Nothing =>
    case Chars(_, rest) => BehindIsUnseen(op, rest);
    case Element(name, kids, rest) =>
      BehindIsUnseen(op, rest);
      WrapperHolds(op, kids);
      if name != PROP {
        InertIsUnseen(op, kids);
      }
      QuietIsUnseen(kids);
  }

  lemma {:induction false} LooseIsSeen(op: Op, f: Forest)
    requires IsLoose(f, true)
    ensures |SeenInside(op, f).0| <= |OfSection(op, f)|
    ensures if IsLate(f, true) then |SeenInside(op, f).0| < |OfSection(op, f)|
        else SeenInside(op, f).0 == OfSection(op, f)
    decreases f
  {
    match f
    case Nothing =>
    case Chars(_, rest) => LooseIsSeen(op, rest);
    case Element(name, kids, rest) =>
      if name == PROP {
        LooseIsSeen(op, rest);
      } else {
        InertIsUnseen(op, kids);
        BehindIsUnseen(op, rest);
      }
  }

  lemma {:induction false} ExtendedIsSeen(f: Forest)
    requires IsExtended(f)
    ensures |SeenOutside(f)| <= |OfUpdate(f)|
    ensures if SomeLate(f) then |SeenOutside(f)| < |OfUpdate(f)| else SeenOutside(f) == OfUpdate(f)
    decreases f
  {
    match f
    case Nothing =>
    case Chars(_, rest) => ExtendedIsSeen(rest);
    case Element(name, kids, rest) =>
      ExtendedIsSeen(rest);
      if name == SET || name == REMOVE {
        LooseIsSeen(OpOf(name), kids);
      } else {
        QuietIsUnseen(kids);
      }
  }

  /**
   Unknown elements are ignored, as section 17 of RFC 4918 asks, exactly when no wrapper holding a
   property comes after one in the same set or remove. Otherwise properties are dropped without a word.
   */
  lemma UnknownIsIgnoredExactlyWhen(root: Name, f: Forest, limit: int)
    requires IsExtended(f) && root != SET && root != REMOVE
    ensures var r := ReadAll(Ok(Begin()), Document(root, f), limit);
            && (|OfUpdate(f)| <= limit ==> r.Ok? && (r.value.done == OfUpdate(f) <==> !SomeLate(f)))
            && (!SomeLate(f) ==> Yields(r, OfUpdate(f), limit))
            && (r.Ok? && SomeLate(f) ==> |r.value.done| < |OfUpdate(f)|)
  {
    DocumentIsRead(root, f, limit);
    ExtendedIsSeen(f);
  }

  /** One such document: an unknown element before the wrapper of a set, whose property is not read. */
  lemma UnknownElementClosesTheSection(root: Name, x: Name, p: Name, limit: nat)
    requires root != SET && root != REMOVE && x != PROP && x != SET && x != REMOVE && p != SET && p != REMOVE
    ensures var f := Element(SET, Element(x, Nothing, Element(PROP, Element(p, Nothing, Nothing), Nothing)), Nothing);
            && OfUpdate(f) == [Instruction(Set, p, "")] && IsExtended(f) && SomeLate(f)
            && ReadAll(Ok(Begin()), Document(root, f), limit).Ok?
            && ReadAll(Ok(Begin()), Document(root, f), limit).value.done == []
  {
    var prop := Element(p, Nothing, Nothing);
    var props := Element(PROP, prop, Nothing);
    var kids := Element(x, Nothing, props);
    var f := Element(SET, kids, Nothing);
    assert OfWrapper(Set, prop) == [Instruction(Set, p, "")] + OfWrapper(Set, Nothing);
    assert OfSection(Set, props) == OfWrapper(Set, prop) + OfSection(Set, Nothing);
    assert OfSection(Set, kids) == [] + OfSection(Set, props);
    assert OfUpdate(f) == OfSection(Set, kids) + OfUpdate(Nothing);
    assert Quiet(Nothing) && Quiet(prop) && IsLoose(Nothing, false) && IsLoose(props, false);
    assert IsLoose(kids, true) && IsExtended(Nothing);
    assert HoldsElement(prop) && IsLate(props, false) && IsLate(kids, true) && SomeLate(f);
    BehindIsUnseen(Set, props);
    assert SeenInside(Set, kids) == (SeenInside(Set, Nothing).0 + SeenOutside(props), false);
    assert SeenOutside(f) == SeenInside(Set, kids).0 + SeenOutside(Nothing);
    DocumentIsRead(root, f, limit);
  }
}
