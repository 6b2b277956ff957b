/** The middleware's message container (a "bottle"): a sequence of values,
    some of them nested lists. Only the accessors the modules call are
    modelled, with the behaviour the middleware gives them: an index out of
    range yields a null value, and a conversion that does not apply yields
    the type's zero. */
module Bottle {
  import opened Wrappers
  import Numeric

  datatype Value =
    | Str(text: string)
    | Int(int32: int)
    | Float(float64: real)
    | Vocab(tag: string)
    | List(items: seq<Value>)
    | Null

  type Message = seq<Value>

  /** `bottle.get(i)`: the i-th element, or the null value when out of range. */
  function Get(b: Message, i: int): (v: Value)
    ensures 0 <= i < |b| ==> v == b[i]
    ensures !(0 <= i < |b|) ==> v == Null
  {
    if 0 <= i < |b| then b[i] else Null
  }

  /** `value.asString()`: the text of a string or vocabulary value, else empty. */
  function AsString(v: Value): string
  {
    match v
    case Str(t) => t
    case Vocab(t) => t
    case _ => ""
  }

  /** `value.asInt32()`: integers as they are, floats truncated toward zero, else 0. */
  function AsInt32(v: Value): int
  {
    match v
    case Int(i) => i
    case Float(x) => Numeric.Truncate(x)
    case _ => 0
  }

  /** `value.asFloat64()`: numbers as reals, else 0.0. */
  function AsFloat64(v: Value): real
  {
    match v
    case Int(i) => i as real
    case Float(x) => x
    case _ => 0.0
  }

  /** `value.asBool()`: a non-zero number or vocabulary is true, and so is
      the text `true`; anything else is false. */
  predicate AsBool(v: Value)
  {
    match v
    case Int(i) => i != 0
    case Float(x) => x != 0.0
    case Vocab(t) => t != ""
    case Str(t) => t == "true"
    case _ => false
  }

  /** `rf.check(key) and rf.find(key).asFloat64() or fallback`, where the
      setting is None when the key is absent: a falsy (zero) number falls
      back as well. */
  function FloatOr(setting: Option<Value>, fallback: real): (r: real)
    ensures setting.Some? && AsFloat64(setting.value) != 0.0 ==> r == AsFloat64(setting.value)
    ensures setting.None? || AsFloat64(setting.value) == 0.0 ==> r == fallback
  {
    if setting.Some? && AsFloat64(setting.value) != 0.0 then AsFloat64(setting.value) else fallback
  }

  /** `value.asList()`: the nested items, or None where the Python caller would
      receive no list and fail on its next access. */
  function AsList(v: Value): Option<Message>
  {
    match v
    case List(items) => Some(items)
    case _ => None
  }

  /** `value.asVocab() == VOCAB_QUIT`: the first word is the `quit` vocabulary. */
  predicate IsQuit(v: Value)
  {
    v == Vocab("quit") || v == Str("quit")
  }

  /** Whether a value is the key `key` (a plain string). */
  predicate IsKey(v: Value, key: string)
  {
    v == Str(key)
  }

  /** Element `i` is a nested group headed by `key`. */
  predicate GroupAt(b: Message, i: int, key: string)
    requires 0 <= i < |b|
  {
    b[i].List? && |b[i].items| > 0 && IsKey(b[i].items[0], key)
  }

  /** `find` stops at element `i`: a group headed by `key`, or a bare `key`
      with an element after it. */
  predicate Hit(b: Message, i: int, key: string)
    requires 0 <= i < |b|
  {
    GroupAt(b, i, key) || (IsKey(b[i], key) && i + 1 < |b|)
  }

  /** What `find` returns when it stops at element `i`. */
  function HitValue(b: Message, i: int, key: string): Value
    requires 0 <= i < |b| && Hit(b, i, key)
  {
    if GroupAt(b, i, key) then Get(b[i].items, 1) else b[i + 1]
  }

  /** `bottle.find(key)`: scanning left to right, a nested list `(key v ...)`
      yields its second element, and a bare `key` followed by another element
      yields that element; otherwise the null value. */
  function Find(b: Message, key: string): (v: Value)
    ensures (forall i :: 0 <= i < |b| ==> !Hit(b, i, key)) ==> v == Null
    ensures forall i :: 0 <= i < |b| && Hit(b, i, key) && (forall j :: 0 <= j < i ==> !Hit(b, j, key)) ==>
      v == HitValue(b, i, key)
    ensures v != Null ==> exists i :: 0 <= i < |b| && (IsKey(b[i], key) || GroupAt(b, i, key))
    decreases |b|
  {
    if |b| == 0 then Null
    else if GroupAt(b, 0, key) then
      assert Hit(b, 0, key);
      Get(b[0].items, 1)
    else if IsKey(b[0], key) && |b| > 1 then
      assert Hit(b, 0, key);
      b[1]
    else
      var v := Find(b[1..], key);
      FindPastHead(b, key, v);
      v
  }

  /** What `find` promises of the tail carries over to the whole message when
      its head is not a hit. */
  lemma FindPastHead(b: Message, key: string, v: Value)
    requires |b| > 0 && !GroupAt(b, 0, key) && !(IsKey(b[0], key) && |b| > 1)
    requires (forall i :: 0 <= i < |b[1..]| ==> !Hit(b[1..], i, key)) ==> v == Null
    requires forall i :: 0 <= i < |b[1..]| && Hit(b[1..], i, key) && (forall j :: 0 <= j < i ==> !Hit(b[1..], j, key)) ==>
      v == HitValue(b[1..], i, key)
    requires v != Null ==> exists i :: 0 <= i < |b[1..]| && (IsKey(b[1..][i], key) || GroupAt(b[1..], i, key))
    ensures (forall i :: 0 <= i < |b| ==> !Hit(b, i, key)) ==> v == Null
    ensures forall i :: 0 <= i < |b| && Hit(b, i, key) && (forall j :: 0 <= j < i ==> !Hit(b, j, key)) ==>
      v == HitValue(b, i, key)
    ensures v != Null ==> exists i :: 0 <= i < |b| && (IsKey(b[i], key) || GroupAt(b, i, key))
  {
    assert !Hit(b, 0, key);
    forall j | 0 <= j < |b| - 1
      ensures Hit(b[1..], j, key) <==> Hit(b, j + 1, key)
      ensures Hit(b, j + 1, key) ==> HitValue(b[1..], j, key) == HitValue(b, j + 1, key)
    {
      assert b[1..][j] == b[j + 1];
    }
    if v != Null {
      var j :| 0 <= j < |b[1..]| && (IsKey(b[1..][j], key) || GroupAt(b[1..], j, key));
      assert b[1..][j] == b[j + 1];
    }
    forall i | 0 <= i < |b| && Hit(b, i, key) && (forall j :: 0 <= j < i ==> !Hit(b, j, key))
      ensures v == HitValue(b, i, key)
    {
      assert Hit(b[1..], i - 1, key);
      forall j | 0 <= j < i - 1 ensures !Hit(b[1..], j, key) {
        assert !Hit(b, j + 1, key);
      }
    }
  }

  /** `bottle.check(key)`: a nested group headed by `key` exists, or `find`
      yields a value. */
  predicate Check(b: Message, key: string)
  {
    (exists i :: 0 <= i < |b| && GroupAt(b, i, key)) || Find(b, key) != Null
  }

  /** `check` holds only where the key is present, always where a group is
      headed by it, and where `find` stops at a non-null value. */
  lemma CheckFindsKey(b: Message, key: string)
    ensures Check(b, key) ==> exists i :: 0 <= i < |b| && (IsKey(b[i], key) || GroupAt(b, i, key))
    ensures (exists i :: 0 <= i < |b| && GroupAt(b, i, key)) ==> Check(b, key)
    ensures forall i :: 0 <= i < |b| && Hit(b, i, key) && (forall j :: 0 <= j < i ==> !Hit(b, j, key)) && HitValue(b, i, key) != Null ==>
      Check(b, key)
  {
  }
}
