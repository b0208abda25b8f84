/** JSON documents as trees, and the few ways the firmware looks at one:
    presence, null, kind tests and value-or-default.

    An object is an ordered sequence of members whose keys are distinct.
    Text is free of NUL characters. */
module JsonTree {

  datatype Option<+T> = None | Some(value: T)

  datatype Json =
    | Null
    | Bool(b: bool)
    | Int(n: int)
    | Text(s: string)
    | Arr(items: seq<Json>)
    | Obj(members: seq<Member>)

  datatype Member = Member(key: string, value: Json)

  type int32 = x: int | -0x8000_0000 <= x < 0x8000_0000
  type uint32 = x: int | 0 <= x < 0x1_0000_0000

  // ----- members of an object -----

  /** The value of the first member with this key. */
  function Find(ms: seq<Member>, key: string): Option<Json> {
    if ms == [] then None
    else if ms[0].key == key then Some(ms[0].value)
    else Find(ms[1..], key)
  }

  function Keys(ms: seq<Member>): set<string> {
    set i | 0 <= i < |ms| :: ms[i].key
  }

  predicate DistinctKeys(ms: seq<Member>) {
    forall i, j :: 0 <= i < j < |ms| ==> ms[i].key != ms[j].key
  }

  predicate Has(j: Json, key: string) {
    j.Obj? && Find(j.members, key).Some?
  }

  /** `j[key]`: null when j is no object or lacks the key. */
  function Get(j: Json, key: string): Json {
    if Has(j, key) then Find(j.members, key).value else Null
  }

  /** `obj[key] = v`: overwrites in place, or appends. */
  function Put(ms: seq<Member>, key: string, v: Json): seq<Member> {
    if ms == [] then [Member(key, v)]
    else if ms[0].key == key then [Member(key, v)] + ms[1..]
    else [ms[0]] + Put(ms[1..], key, v)
  }

  lemma {:induction false} FindAt(ms: seq<Member>, i: nat)
    requires i < |ms|
    requires forall j :: 0 <= j < i ==> ms[j].key != ms[i].key
    ensures Find(ms, ms[i].key) == Some(ms[i].value)
  {
    if i > 0 { FindAt(ms[1..], i - 1); }
  }

  lemma {:induction false} FindIffKey(ms: seq<Member>, key: string)
    ensures Find(ms, key).Some? <==> key in Keys(ms)
    ensures Find(ms, key).Some? ==> exists i :: 0 <= i < |ms| && ms[i] == Member(key, Find(ms, key).value)
  {
    if ms != [] {
      FindIffKey(ms[1..], key);
      assert forall i :: 1 <= i < |ms| ==> ms[i] == ms[1..][i - 1];
      if ms[0].key == key {
        assert ms[0] == Member(key, Find(ms, key).value);
      } else if key in Keys(ms) {
        var i :| 0 <= i < |ms| && ms[i].key == key;
        assert ms[1..][i - 1].key == key;
      }
    }
  }

  lemma {:induction false} FindPut(ms: seq<Member>, key: string, v: Json, other: string)
    ensures Find(Put(ms, key, v), other) == if other == key then Some(v) else Find(ms, other)
  {
    if ms != [] && ms[0].key != key {
      FindPut(ms[1..], key, v, other);
      assert Put(ms, key, v)[1..] == Put(ms[1..], key, v);
    } else if ms != [] {
      assert Put(ms, key, v)[1..] == ms[1..];
    } else {
      assert Put(ms, key, v)[1..] == [];
    }
  }

  lemma {:induction false} PutKeepsDistinct(ms: seq<Member>, key: string, v: Json)
    requires DistinctKeys(ms)
    ensures DistinctKeys(Put(ms, key, v))
    ensures forall m :: m in Put(ms, key, v) ==> m.key == key || exists m' :: m' in ms && m'.key == m.key
  {
    if ms != [] && ms[0].key != key {
      PutKeepsDistinct(ms[1..], key, v);
      var r := Put(ms[1..], key, v);
      forall j | 0 <= j < |r| ensures r[j].key != ms[0].key { assert r[j] in r; }
    }
  }

  lemma {:induction false} FindAppend(a: seq<Member>, b: seq<Member>, key: string)
    ensures Find(a + b, key) == if Find(a, key).Some? then Find(a, key) else Find(b, key)
  {
    if a == [] {
      assert a + b == b;
    } else {
      FindAppend(a[1..], b, key);
      assert (a + b)[1..] == a[1..] + b;
    }
  }

  lemma {:induction false} FindIsSmaller(ms: seq<Member>, key: string)
    ensures Find(ms, key).Some? ==> (ms decreases to Find(ms, key).value)
  {
    if ms != [] && ms[0].key != key { FindIsSmaller(ms[1..], key); }
  }

  lemma GetIsSmaller(j: Json, key: string)
    ensures Has(j, key) ==> (j decreases to Get(j, key))
  {
    if j.Obj? { FindIsSmaller(j.members, key); }
  }

  // ----- conversions -----

  /** `as<const char*>()`: the text, or nothing. */
  function AsText(j: Json): Option<string> {
    if j.Text? then Some(j.s) else None
  }

  /** `as<const char*>()` with the empty string for nothing. */
  function TextOrEmpty(j: Json): string {
    if j.Text? then j.s else ""
  }

  /** `as<JsonArrayConst>()`: the items, none if it is no array. */
  function Items(j: Json): seq<Json> {
    if j.Arr? then j.items else []
  }

  /** `as<JsonObjectConst>()`: the members, none if it is no object. */
  function Members(j: Json): seq<Member> {
    if j.Obj? then j.members else []
  }

  /** `as<bool>()`: numbers are true unless zero, null is false, all else is true. */
  function AsBool(j: Json): bool {
    match j
    case Null => false
    case Bool(b) => b
    case Int(n) => n != 0
    case _ => true
  }

  /** `j | d` for a default d of type int: d unless j is a 32-bit integer. */
  function IntOr(j: Json, d: int32): int32 {
    if j.Int? && -0x8000_0000 <= j.n < 0x8000_0000 then j.n else d
  }

  /** `j | d` for a default d of type unsigned. */
  function UnsignedOr(j: Json, d: uint32): uint32 {
    if j.Int? && 0 <= j.n < 0x1_0000_0000 then j.n else d
  }

  /** `j | d` for a default d of type bool. */
  function BoolOr(j: Json, d: bool): bool {
    if j.Bool? then j.b else d
  }

  /** Assigning an int to a uint32_t. */
  function ToUint32(n: int32): uint32 {
    if n < 0 then n + 0x1_0000_0000 else n
  }

  /** The serialised text of an array or object, whatever it is. */
  const SERIALIZED: Json -> string

  function Digits(n: nat): (s: string)
    ensures s != "" && forall i :: 0 <= i < |s| ==> '0' <= s[i] <= '9'
  {
    var d := [('0' as int + n % 10) as char];
    if n < 10 then d else Digits(n / 10) + d
  }

  /** How a value reads inside a text. */
  function TextForm(j: Json): string {
    match j
    case Text(s) => s
    case Bool(b) => if b then "true" else "false"
    case Int(n) => if n < 0 then "-" + Digits(-n) else Digits(n)
    case Null => "null"
    case _ => SERIALIZED(j)
  }

  // ----- letter case -----

  function LowerChar(c: char): char {
    if 'A' <= c <= 'Z' then c + 32 as char else c
  }

  function Lower(s: string): string {
    seq(|s|, i requires 0 <= i < |s| => LowerChar(s[i]))
  }

  // ----- searching a text -----

  /** The first position at or after `from` that holds c. */
  function IndexOf(s: string, c: char, from: nat): (r: Option<nat>)
    requires from <= |s|
    ensures r.Some? ==> from <= r.value < |s| && s[r.value] == c
                        && forall i :: from <= i < r.value ==> s[i] != c
    ensures r.None? ==> forall i :: from <= i < |s| ==> s[i] != c
    decreases |s| - from
  {
    if from == |s| then None
    else if s[from] == c then Some(from)
    else IndexOf(s, c, from + 1)
  }
}
