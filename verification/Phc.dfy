/** The stored password hash (auth/password.go). */
module Phc {
  import opened Octets
  import opened Text
  import opened Decimals
  import Base64

  datatype Params = Params(memoryKiB: nat, iterations: nat, parallelism: nat, keyLen: nat)

  datatype Parsed = Parsed(params: Params, salt: bytes, key: bytes)

  const ALGORITHM: Text := "argon2id"

  const VERSION: Text := "v=19"

  const MAX_MEMORY_KIB := 4 * 1024 * 1024

  const MAX_ITERATIONS := 32

  const MAX_PARALLELISM := 16

  const MAX_SALT_LEN := 64

  const MAX_KEY_LEN := 64

  // ---- The string form.

  function Costs(p: Params): seq<Text> {
    [Cost('m', p.memoryKiB), Cost('t', p.iterations), Cost('p', p.parallelism)]
  }

  function Cost(name: Byte, n: nat): Text {
    [name] + "=" + Decimal(n)
  }

  function Fields(p: Params, salt: bytes, key: bytes): seq<Text> {
    ["", ALGORITHM, VERSION, Join(Costs(p), ','), Base64.Encode(salt), Base64.Encode(key)]
  }

  /** `encodePHC`. */
  function Encode(p: Params, salt: bytes, key: bytes): Text {
    Join(Fields(p, salt, key), '$')
  }

  /** The cost parameters read so far; zero is not read. */
  datatype Read = Read(memory: nat, time: nat, lanes: nat, seen: set<Text>)

  function ReadCost(r: Read, kv: Text): Option<Read> {
    var eq := IndexByte(kv, '=');
    if eq < 0 || kv[..eq] in r.seen then None
    else
      var name, n := kv[..eq], ParseInt(kv[eq + 1..]);
      var seen := r.seen + {name};
      if n.None? || n.value <= 0 then None
      else if name == "m" then if n.value > MAX_MEMORY_KIB then None else Some(r.(memory := n.value, seen := seen))
      else if name == "t" then if n.value > MAX_ITERATIONS then None else Some(r.(time := n.value, seen := seen))
      else if name == "p" then if n.value > MAX_PARALLELISM then None else Some(r.(lanes := n.value, seen := seen))
      else None
  }

  function ReadCosts(r: Read, kvs: seq<Text>): Option<Read>
    decreases |kvs|
  {
    if kvs == [] then Some(r)
    else match ReadCost(r, kvs[0])
         case None => None
         case Some(r') => ReadCosts(r', kvs[1..])
  }

  function Bounded(s: Text, max: nat): Option<bytes> {
    match Base64.Decode(s)
    case None => None
    case Some(b) => if 0 < |b| <= max then Some(b) else None
  }

  /** What `parsePHC` answers, field by field; the first field is not looked at. */
  function FromFields(fields: seq<Text>): Option<Parsed> {
    if |fields| != 6 || fields[1] != ALGORITHM || fields[2] != VERSION then None
    else
      match ReadCosts(Read(0, 0, 0, {}), Split(fields[3], ','))
      case None => None
      case Some(r) =>
        if r.memory == 0 || r.time == 0 || r.lanes == 0 then None
        else
          var salt, key := Bounded(fields[4], MAX_SALT_LEN), Bounded(fields[5], MAX_KEY_LEN);
          if salt.None? || key.None? then None
          else Some(Parsed(Params(r.memory, r.time, r.lanes, |key.value|), salt.value, key.value))
  }

  function Parse(s: Text): Option<Parsed> {
    FromFields(Split(s, '$'))
  }

  method ParsePHC(s: Text) returns (res: Option<Parsed>)
    ensures res == Parse(s)
  {
    var fields := Split(s, '$');
    if |fields| != 6 || fields[1] != ALGORITHM || fields[2] != VERSION {
      return None;
    }
    var costs := ParseCosts(fields[3]);
    if costs.None? || costs.value.memory == 0 || costs.value.time == 0 || costs.value.lanes == 0 {
      return None;
    }
    var salt := Base64.Decode(fields[4]);
    if salt.None? || |salt.value| == 0 || |salt.value| > MAX_SALT_LEN {
      return None;
    }
    var key := Base64.Decode(fields[5]);
    if key.None? || |key.value| == 0 || |key.value| > MAX_KEY_LEN {
      return None;
    }
    return Some(Parsed(Params(costs.value.memory, costs.value.time, costs.value.lanes, |key.value|), salt.value,
        key.value));
  }

  /** The loop over the cost parameters. */
  method ParseCosts(field: Text) returns (res: Option<Read>)
    ensures res == ReadCosts(Read(0, 0, 0, {}), Split(field, ','))
  {
    var kvs := Split(field, ',');
    var r := Read(0, 0, 0, {});
    assert kvs[0..] == kvs;
    for i := 0 to |kvs|
      invariant ReadCosts(Read(0, 0, 0, {}), kvs) == ReadCosts(r, kvs[i..])
    {
      assert kvs[i..][1..] == kvs[i + 1..];
      var next := ParseCost(r, kvs[i]);
      if next.None? {
        return None;
      }
      r := next.value;
    }
    return Some(r);
  }

  method ParseCost(r: Read, kv: Text) returns (res: Option<Read>)
    ensures res == ReadCost(r, kv)
  {
    var eq := IndexByte(kv, '=');
    if eq < 0 || kv[..eq] in r.seen {
      return None;
    }
    var name, n := kv[..eq], ParseInt(kv[eq + 1..]);
    if n.None? {
      return None;
    }
    var next := r.(seen := r.seen + {name});
    if name == "m" {
      if n.value <= 0 || n.value > MAX_MEMORY_KIB {
        return None;
      }
      next := next.(memory := n.value);
    } else if name == "t" {
      if n.value <= 0 || n.value > MAX_ITERATIONS {
        return None;
      }
      next := next.(time := n.value);
    } else if name == "p" {
      if n.value <= 0 || n.value > MAX_PARALLELISM {
        return None;
      }
      next := next.(lanes := n.value);
    } else {
      return None;
    }
    return Some(next);
  }

  // ---- Round trips.

  predicate InBounds(p: Params, salt: bytes, key: bytes) {
    && 0 < p.memoryKiB <= MAX_MEMORY_KIB && 0 < p.iterations <= MAX_ITERATIONS && 0 < p.parallelism <= MAX_PARALLELISM
    && 0 < |salt| <= MAX_SALT_LEN && 0 < |key| <= MAX_KEY_LEN && p.keyLen == |key|
  }

  lemma CostReadsBack(name: Byte, n: nat)
    requires 0 < n <= MAX_INT64 && name in {'m', 't', 'p'}
    ensures IndexByte(Cost(name, n), '=') == 1 && Cost(name, n)[..1] == [name]
        && ParseInt(Cost(name, n)[2..]) == Some(n)
    ensures ',' !in Cost(name, n) && '$' !in Cost(name, n)
  {
    var kv := Cost(name, n);
    DecimalParses(n);
    DecimalReadsBack(n);
    assert kv[..1] == [name] && kv[1] == '=' && kv[2..] == Decimal(n);
    IndexIsFirst(kv, '=', 1);
  }

  lemma CostIsRead(r: Read, name: Byte, n: nat, max: nat)
    requires 0 < n <= max <= MAX_INT64 && [name] !in r.seen
    requires (name == 'm' && max == MAX_MEMORY_KIB) || (name == 't' && max == MAX_ITERATIONS)
        || (name == 'p' && max == MAX_PARALLELISM)
    ensures ReadCost(r, Cost(name, n))
            == Some(Read(if name == 'm' then n else r.memory, if name == 't' then n else r.time,
                         if name == 'p' then n else r.lanes, r.seen + {[name]}))
  {
    CostReadsBack(name, n);
  }

  lemma ThreeCosts(r0: Read, r1: Read, r2: Read, r3: Read, a: Text, b: Text, c: Text)
    requires ReadCost(r0, a) == Some(r1) && ReadCost(r1, b) == Some(r2) && ReadCost(r2, c) == Some(r3)
    ensures ReadCosts(r0, [a, b, c]) == Some(r3)
  {
    assert [a, b, c][1..] == [b, c] && [b, c][1..] == [c];
    assert ReadCosts(r2, [c]) == ReadCosts(r3, [c][1..]);
  }

  lemma {:induction false} CostsAreRead(p: Params, salt: bytes, key: bytes)
    requires InBounds(p, salt, key)
    ensures ReadCosts(Read(0, 0, 0, {}), Costs(p)).Some?
    ensures var r := ReadCosts(Read(0, 0, 0, {}), Costs(p)).value;
            r.memory == p.memoryKiB && r.time == p.iterations && r.lanes == p.parallelism
  {
    var r0 := Read(0, 0, 0, {});
    var r1 := Read(p.memoryKiB, 0, 0, r0.seen + {['m']});
    var r2 := Read(p.memoryKiB, p.iterations, 0, r1.seen + {['t']});
    var r3 := Read(p.memoryKiB, p.iterations, p.parallelism, r2.seen + {['p']});
    CostIsRead(r0, 'm', p.memoryKiB, MAX_MEMORY_KIB);
    CostIsRead(r1, 't', p.iterations, MAX_ITERATIONS);
    CostIsRead(r2, 'p', p.parallelism, MAX_PARALLELISM);
    ThreeCosts(r0, r1, r2, r3, Cost('m', p.memoryKiB), Cost('t', p.iterations), Cost('p', p.parallelism));
  }

  lemma {:induction false} CostsSplit(p: Params, salt: bytes, key: bytes)
    requires InBounds(p, salt, key)
    ensures Split(Join(Costs(p), ','), ',') == Costs(p) && '$' !in Join(Costs(p), ',')
  {
    var a, b, c := Cost('m', p.memoryKiB), Cost('t', p.iterations), Cost('p', p.parallelism);
    CostReadsBack('m', p.memoryKiB);
    CostReadsBack('t', p.iterations);
    CostReadsBack('p', p.parallelism);
    SplitInvertsJoin([a, b, c], ',');
    ThreeJoined(a, b, c, '$');
  }

  lemma ThreeJoined(a: Text, b: Text, c: Text, x: Byte)
    requires x != ',' && x !in a && x !in b && x !in c
    ensures x !in Join([a, b, c], ',')
  {
    assert [a, b, c][1..] == [b, c] && [b, c][1..] == [c];
    assert Join([c], ',') == c;
    assert Join([b, c], ',') == b + [','] + c;
  }

  lemma {:induction false} FieldsAreRead(p: Params, salt: bytes, key: bytes)
    requires InBounds(p, salt, key)
    ensures FromFields(Fields(p, salt, key)) == Some(Parsed(p, salt, key))
  {
    CostsSplit(p, salt, key);
    CostsAreRead(p, salt, key);
    BoundedReads(salt, MAX_SALT_LEN);
    BoundedReads(key, MAX_KEY_LEN);
    var r := ReadCosts(Read(0, 0, 0, {}), Costs(p)).value;
    PartsAreRead(Join(Costs(p), ','), Base64.Encode(salt), Base64.Encode(key), r, salt, key);
  }

  lemma {:induction false} PartsAreRead(costs: Text, saltText: Text, keyText: Text, r: Read, salt: bytes, key: bytes)
    requires ReadCosts(Read(0, 0, 0, {}), Split(costs, ',')) == Some(r) && r.memory > 0 && r.time > 0 && r.lanes > 0
    requires Bounded(saltText, MAX_SALT_LEN) == Some(salt) && Bounded(keyText, MAX_KEY_LEN) == Some(key)
    ensures FromFields(["", ALGORITHM, VERSION, costs, saltText, keyText])
            == Some(Parsed(Params(r.memory, r.time, r.lanes, |key|), salt, key))
  {
    var fields := ["", ALGORITHM, VERSION, costs, saltText, keyText];
    assert fields[1] == ALGORITHM && fields[2] == VERSION && fields[3] == costs && fields[4] == saltText
        && fields[5] == keyText;
  }

  lemma BoundedReads(b: bytes, max: nat)
    requires 0 < |b| <= max
    ensures Bounded(Base64.Encode(b), max) == Some(b)
  {
    Base64.DecodeInvertsEncode(b);
  }

  /** The parser inverts the printer on every parameter set, salt and key within bounds. */
  lemma ParseInvertsEncode(p: Params, salt: bytes, key: bytes)
    requires InBounds(p, salt, key)
    ensures Parse(Encode(p, salt, key)) == Some(Parsed(p, salt, key))
  {
    FieldsAreRead(p, salt, key);
    CostsSplit(p, salt, key);
    Base64.DecodeInvertsEncode(salt);
    Base64.DecodeInvertsEncode(key);
    SixFields(Join(Costs(p), ','), Base64.Encode(salt), Base64.Encode(key));
  }

  lemma SixFields(costs: Text, salt: Text, key: Text)
    requires '$' !in costs && '$' !in salt && '$' !in key
    ensures var fields := ["", ALGORITHM, VERSION, costs, salt, key]; Split(Join(fields, '$'), '$') == fields
  {
    var fields := ["", ALGORITHM, VERSION, costs, salt, key];
    assert '$' !in fields[0] && '$' !in fields[1] && '$' !in fields[2];
    SplitInvertsJoin(fields, '$');
  }

  predicate CostsInBounds(r: Read) {
    r.memory <= MAX_MEMORY_KIB && r.time <= MAX_ITERATIONS && r.lanes <= MAX_PARALLELISM
  }

  lemma {:induction false} CostsBounded(r: Read, kvs: seq<Text>)
    requires CostsInBounds(r) && ReadCosts(r, kvs).Some?
    ensures CostsInBounds(ReadCosts(r, kvs).value)
    decreases |kvs|
  {
    if kvs != [] {
      CostsBounded(ReadCost(r, kvs[0]).value, kvs[1..]);
    }
  }

  /** Everything accepted is within every bound. */
  lemma AcceptedIsBounded(fields: seq<Text>)
    requires FromFields(fields).Some?
    ensures var h := FromFields(fields).value; InBounds(h.params, h.salt, h.key)
  {
    CostsBounded(Read(0, 0, 0, {}), Split(fields[3], ','));
  }

  /** Everything accepted has a canonical form that is read as the same hash. */
  lemma {:induction false} AcceptedIsCanonical(s: Text)
    requires Parse(s).Some?
    ensures var h := Parse(s).value; Parse(Encode(h.params, h.salt, h.key)) == Parse(s)
  {
    var h := Parse(s).value;
    AcceptedIsBounded(Split(s, '$'));
    ParseInvertsEncode(h.params, h.salt, h.key);
  }

  /** What stands before the first separator is not looked at, though the form calls for nothing there. */
  lemma {:induction false} LeadingFieldIsIgnored(junk: Text, s: Text)
    requires '$' !in junk && s != [] && s[0] == '$'
    ensures Parse(junk + s) == Parse(s)
  {
    var t := junk + s;
    assert t == junk + ['$'] + s[1..];
    assert t[..|junk|] == junk && t[|junk| + 1..] == s[1..] && s[..0] == [];
    SplitFirst(t, '$', |junk|);
    SplitFirst(s, '$', 0);
    OnlyLaterFields(junk, [], Split(s[1..], '$'));
  }

  lemma OnlyLaterFields(a: Text, b: Text, rest: seq<Text>)
    ensures FromFields([a] + rest) == FromFields([b] + rest)
  {
    var f, g := [a] + rest, [b] + rest;
    assert forall k :: 1 <= k < |f| ==> f[k] == g[k] == rest[k - 1];
  }
}
