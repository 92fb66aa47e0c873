/** One archive entry's bytes, cut at its declared size (files/archive.go). */
module EntryReader {
  import opened Octets

  /** How a read ends: more may follow, the end, or an error. */
  datatype End = More | Eof | Failed

  /** What a source answers to its next read. */
  datatype Step = Step(data: bytes, end: End)

  /** A source is what its reads will answer; after the last it is at its end. */
  type Source = seq<Step>

  /** One `Read` of at most `max` bytes: what a step cannot deliver waits for the next read. */
  function ReadOnce(s: Source, max: nat): (bytes, End, Source) {
    if s == [] then ([], Eof, [])
    else if |s[0].data| <= max then (s[0].data, s[0].end, s[1..])
    else (s[0].data[..max], More, [Step(s[0].data[max..], s[0].end)] + s[1..])
  }

  /** Everything the source would give. */
  function Content(s: Source): bytes {
    if s == [] then []
    else if s[0].end == More then s[0].data + Content(s[1..])
    else s[0].data
  }

  /** Whether it ends in an error. */
  predicate Fails(s: Source) {
    s != [] && if s[0].end == More then Fails(s[1..]) else s[0].end == Failed
  }

  /** No read but the last is without bytes. */
  predicate Steady(s: Source) {
    forall i :: 0 <= i < |s| ==> s[i].data != []
  }

  /** Whether the single probing byte finds more, or an error. */
  predicate Loud(s: Source) {
    s != [] && (s[0].data != [] || s[0].end == Failed)
  }

  // ---- The stream an entry is read from.

  const STREAM_CHUNK := 0x4_0000

  /** An open file: what its descriptor will answer, and how long the range is that is read from it. */
  datatype File = File(answers: Source, length: nat)

  /**
   What `Stream.Read` makes of the descriptor's answers: the range ends at `room` more bytes, an
   answer without bytes is the end whatever error came with it, and an end with bytes is not one yet.
   */
  function Served(answers: Source, room: nat): (s: Source)
    ensures Steady(s)
    decreases |answers|
  {
    if room == 0 || answers == [] || answers[0].data == [] then []
    else if |answers[0].data| > room then [Step(answers[0].data[..room], More)]
    else if answers[0].end == Failed then [Step(answers[0].data, Failed)]
    else [Step(answers[0].data, More)] + Served(answers[1..], room - |answers[0].data|)
  }

  /** What reading the file from its start gives. */
  function Given(f: File): Source {
    Served(f.answers, f.length)
  }

  /** `Stream`: a bounded reader over one open descriptor. */
  class Stream {
    var answers: Source
    var pos: nat
    var end: nat

    ghost function Steps(): (s: Source)
      reads this
      ensures Steady(s)
    {
      Served(answers, if pos < end then end - pos else 0)
    }

    constructor (f: File)
      ensures Steps() == Given(f)
    {
      answers, pos, end := f.answers, 0, f.length;
    }

    /** `ReadAt` of the descriptor. */
    method ReadAt(want: nat) returns (data: bytes, how: End)
      modifies `answers
      ensures (data, how, answers) == ReadOnce(old(answers), want)
    {
      var (got, e, rest) := ReadOnce(answers, want);
      data, how, answers := got, e, rest;
    }

    /** `Read` into a buffer of `size` bytes: one read of the steps, of a chunk at most. */
    method Read(size: nat) returns (data: bytes, how: End)
      modifies this
      ensures size > 0 ==>
                var (got, e, rest) := ReadOnce(old(Steps()), Min(size, STREAM_CHUNK));
                data == got && how == e && (e == More ==> Steps() == rest && data != [])
      ensures size == 0 ==> data == [] && how == if old(pos) < old(end) then More else Eof
    {
      if pos >= end {
        return [], Eof;
      }
      var want := Min(Min(end - pos, size), STREAM_CHUNK);
      if want == 0 {
        return [], More;
      }
      ServedByRead(answers, end - pos, Min(size, STREAM_CHUNK));
      data, how := ReadAt(want);
      if |data| == 0 {
        end := pos;
        return [], Eof;
      }
      pos := pos + |data|;
      if how == Eof {
        how := More;
      }
    }
  }

  function Min(a: nat, b: nat): nat {
    if a < b then a else b
  }

  /** One read of the descriptor is one read of what the stream serves. */
  lemma {:induction false} ServedByRead(answers: Source, room: nat, max: nat)
    requires room > 0 && max > 0
    ensures var (data, how, left) := ReadOnce(answers, Min(room, max));
            var (got, e, rest) := ReadOnce(Served(answers, room), max);
            && got == data
            && e == (if data == [] then Eof else if how == Failed then Failed else More)
            && (e == More ==> Served(left, room - |data|) == rest)
  {
    if answers != [] && answers[0].data != [] {
      var a, tail := answers[0].data, answers[1..];
      if |a| > room {
        assert Served(answers, room) == [Step(a[..room], More)];
        if max < room {
          assert a[..room][..max] == a[..max] && a[..room][max..] == a[max..][..room - max];
        } else {
          assert [Step(a[..room], More)][1..] == [];
        }
      } else if |a| > max {
        var left := [Step(a[max..], answers[0].end)] + tail;
        assert left[1..] == tail;
        ServedFirst(answers, room);
        ServedFirst(left, room - max);
      } else {
        ServedFirst(answers, room);
      }
    }
  }

  lemma ServedFirst(answers: Source, room: nat)
    requires answers != [] && 0 < |answers[0].data| <= room
    ensures var s, a := Served(answers, room), answers[0];
            && s != []
            && if a.end == Failed then s == [Step(a.data, Failed)] && s[1..] == []
               else s[0] == Step(a.data, More) && s[1..] == Served(answers[1..], room - |a.data|)
  {
  }

  // ---- The entry's reader.

  /** The bytes the entry carries and whether it is flagged, whatever the sizes of the copy's reads. */
  function Copied(s: Source, remaining: nat): (bytes, bool) {
    if remaining == 0 then ([], Loud(s))
    else if s == [] then ([], true)
    else if |s[0].data| > remaining then (s[0].data[..remaining], true)
    else if s[0].end == More then
      var (more, flag) := Copied(s[1..], remaining - |s[0].data|);
      (s[0].data + more, flag)
    else (s[0].data, s[0].end == Failed || |s[0].data| < remaining)
  }

  class Reader {
    const source: Stream
    var remaining: nat
    var read: nat
    var incomplete: bool

    constructor (source: Stream, declared: nat)
      ensures this.source == source && remaining == declared && read == 0 && !incomplete
    {
      this.source, remaining, read, incomplete := source, declared, 0, false;
    }

    /** What is still to be copied, and whether it will be flagged. */
    ghost function Pending(): (bytes, bool)
      reads this, source
    {
      Copied(source.Steps(), remaining)
    }

    /** `Read` into a buffer of `size` bytes; the second result is whether it says EOF. */
    method Read(size: nat) returns (data: bytes, eof: bool)
      requires size > 0
      modifies this, source
      ensures |data| <= size && |data| + remaining == old(remaining) && read == old(read) + |data|
      ensures eof ==> old(Pending()).0 == data && incomplete == (old(incomplete) || old(Pending()).1)
      ensures !eof ==>
                && old(Pending()) == (data + Pending().0, Pending().1)
                && incomplete == old(incomplete) && data != []
    {
      if remaining == 0 {
        var extra, how := source.Read(1);
        if |extra| > 0 || how == Failed {
          incomplete := true;
        }
        return [], true;
      }
      var max := if size > remaining then remaining else size;
      CopiedByRead(source.Steps(), remaining, Min(max, STREAM_CHUNK));
      var got, how := source.Read(max);
      remaining, read := remaining - |got|, read + |got|;
      if how != More {
        if how == Failed || remaining > 0 {
          incomplete := true;
        }
        return got, true;
      }
      return got, false;
    }
  }

  /** Copying through smaller reads comes to the same. */
  lemma CopiedByRead(s: Source, remaining: nat, max: nat)
    requires 0 < max <= remaining
    ensures var (got, end, rest) := ReadOnce(s, max);
            && |got| <= max
            && Copied(s, remaining) ==
               if end == More then (got + Copied(rest, remaining - |got|).0, Copied(rest, remaining - |got|).1)
               else (got, end == Failed || |got| < remaining)
  {
    if s != [] && |s[0].data| > max {
      var rest := [Step(s[0].data[max..], s[0].end)] + s[1..];
      assert rest[1..] == s[1..];
      assert s[0].data[..max] + s[0].data[max..] == s[0].data;
      if |s[0].data| > remaining {
        assert s[0].data[..max] + s[0].data[max..][..remaining - max] == s[0].data[..remaining];
      } else if s[0].end == More {
        var more := Copied(s[1..], remaining - |s[0].data|).0;
        assert s[0].data[..max] + (s[0].data[max..] + more) == s[0].data + more;
      }
    }
  }

  /** `io.Copy`: read until EOF, with buffers of any size. */
  method CopyAll(r: Reader, buffer: nat) returns (data: bytes)
    requires buffer > 0 && r.read == 0 && !r.incomplete
    modifies r, r.source
    ensures (data, r.incomplete) == Copied(old(r.source.Steps()), old(r.remaining))
    ensures r.read == |data| <= old(r.remaining)
  {
    data := [];
    ghost var declared, whole := r.remaining, r.Pending();
    var eof := false;
    assert [] + whole.0 == whole.0;
    while !eof
      invariant r.read == |data| && |data| + r.remaining == declared
      invariant if eof then (data, r.incomplete) == whole
                else !r.incomplete && whole == (data + r.Pending().0, r.Pending().1)
      decreases !eof, r.remaining
    {
      ghost var before := r.Pending().0;
      var got, done := r.Read(buffer);
      assert !done ==> data + before == data + got + r.Pending().0;
      data, eof := data + got, done;
    }
  }

  /** The first bytes of the source, up to the declared size. */
  lemma {:induction false} CopiedBytes(s: Source, declared: nat)
    ensures Copied(s, declared).0 == Content(s)[..Min(declared, |Content(s)|)]
  {
    if declared > 0 && s != [] && |s[0].data| <= declared && s[0].end == More {
      CopiedBytes(s[1..], declared - |s[0].data|);
    }
  }

  lemma {:induction false} SteadyFlag(s: Source, declared: nat)
    requires Steady(s)
    ensures Copied(s, declared).1 <==> |Content(s)| != declared || Fails(s)
  {
    if declared > 0 && s != [] && |s[0].data| <= declared && s[0].end == More {
      SteadyFlag(s[1..], declared - |s[0].data|);
    }
  }

  /**
   An entry carries the first bytes its file gives, up to the declared size, and is flagged exactly
   when it gives another number of bytes or fails.
   */
  lemma FlaggedExactlyWhen(f: File, declared: nat)
    ensures var s := Given(f);
            && Copied(s, declared).0 == Content(s)[..Min(declared, |Content(s)|)]
            && (Copied(s, declared).1 <==> |Content(s)| != declared || Fails(s))
  {
    CopiedBytes(Given(f), declared);
    SteadyFlag(Given(f), declared);
  }

  /** So an entry that is not flagged is the whole of what its file gave, at its declared size. */
  lemma UnflaggedIsWhole(f: File, declared: nat)
    requires !Copied(Given(f), declared).1
    ensures Copied(Given(f), declared).0 == Content(Given(f)) && |Content(Given(f))| == declared && !Fails(Given(f))
  {
    FlaggedExactlyWhen(f, declared);
  }

  /** The file's own bytes come through: a file that answers without failing gives its first bytes, up to the range. */
  lemma {:induction false} ServedContent(answers: Source, room: nat)
    requires Steady(answers) && forall i :: 0 <= i < |answers| ==> answers[i].end == More
    ensures Content(Served(answers, room)) == Content(answers)[..Min(room, |Content(answers)|)]
    ensures !Fails(Served(answers, room))
    decreases |answers|
  {
    if room > 0 && answers != [] && |answers[0].data| <= room {
      ServedFirst(answers, room);
      ServedContent(answers[1..], room - |answers[0].data|);
    }
  }
}
