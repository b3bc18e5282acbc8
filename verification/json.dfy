/**
 The JSON values the harness exchanges with the nodes, and the few pieces of
 JavaScript property-access semantics the harness relies on.

 Object fields are kept as an ordered list: the order is the object's own
 property order, which is what `JSON.stringify` writes out. For the objects
 JavaScript can build (distinct keys, integer-like keys first and ascending)
 two values serialise to the same text exactly when they are equal here.
 */
module Json {
  import opened Wrappers

  datatype Json =
    | JNull
    | JBool(b: bool)
    | JNum(n: int)
    | JStr(s: string)
    | JArr(items: seq<Json>)
    | JObj(fields: seq<(string, Json)>)

  /** The keys of an object, in property order. */
  function Keys(fields: seq<(string, Json)>): (r: seq<string>)
    ensures |r| == |fields|
    ensures forall i :: 0 <= i < |fields| ==> r[i] == fields[i].0
  {
    if |fields| == 0 then [] else [fields[0].0] + Keys(fields[1..])
  }

  /** `obj[key]` on an object: the value bound to `key`, or `undefined`. */
  function Lookup(fields: seq<(string, Json)>, key: string): (r: Option<Json>)
    ensures r.Some? <==> key in Keys(fields)
    ensures r.Some? ==> exists i :: 0 <= i < |fields| && fields[i] == (key, r.value)
  {
    if |fields| == 0 then None
    else if fields[0].0 == key then Some(fields[0].1)
    else Lookup(fields[1..], key)
  }

  /** The value at position `i` is what a lookup of its key finds when no earlier field has that key. */
  lemma {:induction false} LookupAt(fields: seq<(string, Json)>, i: nat)
    requires i < |fields|
    requires forall j :: 0 <= j < i ==> fields[j].0 != fields[i].0
    ensures Lookup(fields, fields[i].0) == Some(fields[i].1)
  {
    if i > 0 {
      assert forall j :: 0 <= j < i - 1 ==> fields[1..][j].0 == fields[j + 1].0;
      LookupAt(fields[1..], i - 1);
    }
  }

  /** `obj[key]` on an object finds the value at position `i` when no earlier field has that key. */
  lemma MemberAt(fields: seq<(string, Json)>, i: nat)
    requires i < |fields|
    requires forall j :: 0 <= j < i ==> fields[j].0 != fields[i].0
    ensures Member(JObj(fields), fields[i].0) == Some(fields[i].1)
  {
    LookupAt(fields, i);
  }

  /** A lookup in a concatenation finds the first part's binding, or else the second part's. */
  lemma {:induction false} LookupAppend(a: seq<(string, Json)>, b: seq<(string, Json)>, key: string)
    ensures Lookup(a + b, key) == if Lookup(a, key).Some? then Lookup(a, key) else Lookup(b, key)
  {
    if |a| > 0 {
      assert (a + b)[1..] == a[1..] + b;
      LookupAppend(a[1..], b, key);
    } else {
      assert a + b == b;
    }
  }

  /** The object without any binding of `key` (what the object looks like had the field never been sent). */
  function WithoutKey(fields: seq<(string, Json)>, key: string): (r: seq<(string, Json)>)
    ensures key !in Keys(r)
    ensures |r| <= |fields|
  {
    if |fields| == 0 then []
    else if fields[0].0 == key then WithoutKey(fields[1..], key)
    else [fields[0]] + WithoutKey(fields[1..], key)
  }

  /** Dropping one key leaves every other key's lookup unchanged. */
  lemma {:induction false} LookupWithoutKey(fields: seq<(string, Json)>, key: string, other: string)
    requires other != key
    ensures Lookup(WithoutKey(fields, key), other) == Lookup(fields, other)
  {
    if |fields| > 0 {
      LookupWithoutKey(fields[1..], key, other);
      if fields[0].0 != key {
        var rest := WithoutKey(fields[1..], key);
        assert WithoutKey(fields, key) == [fields[0]] + rest;
        assert ([fields[0]] + rest)[1..] == rest;
      }
    }
  }

  // ---------------------------------------------------------------------------
  // Array index keys: JavaScript names array element i by the decimal text of i.
  // ---------------------------------------------------------------------------

  predicate IsDigit(c: char) {
    '0' <= c <= '9'
  }

  function DigitChar(d: nat): (c: char)
    requires d < 10
    ensures IsDigit(c) && (c as int) - ('0' as int) == d
  {
    (('0' as int) + d) as char
  }

  /** The decimal text of `n`, the key under which `for…in` reports array index `n`. */
  function IndexKey(n: nat): (r: string)
    ensures |r| >= 1
    ensures forall i :: 0 <= i < |r| ==> IsDigit(r[i])
    ensures |r| > 1 ==> r[0] != '0'
    decreases n
  {
    if n < 10 then [DigitChar(n)] else IndexKey(n / 10) + [DigitChar(n % 10)]
  }

  function DigitsValue(s: string): nat
    requires forall i :: 0 <= i < |s| ==> IsDigit(s[i])
  {
    if |s| == 0 then 0
    else
      var c := s[|s| - 1];
      assert IsDigit(c);
      DigitsValue(s[..|s| - 1]) * 10 + ((c as int) - ('0' as int))
  }

  /** A canonical array index: digits only, no leading zero except "0" itself. */
  predicate IsIndexKey(s: string) {
    && |s| >= 1
    && (forall i :: 0 <= i < |s| ==> IsDigit(s[i]))
    && (|s| == 1 || s[0] != '0')
  }

  function ParseIndex(s: string): Option<nat> {
    if IsIndexKey(s) then Some(DigitsValue(s)) else None
  }

  /** The key `for…in` reports for index `n` reads back as element `n`. */
  lemma {:induction false} ParseIndexKey(n: nat)
    ensures ParseIndex(IndexKey(n)) == Some(n)
    decreases n
  {
    var k := IndexKey(n);
    assert IsIndexKey(k);
    if n < 10 {
      assert k == [DigitChar(n)];
      assert k[..0] == [];
      assert DigitsValue(k) == DigitsValue(k[..0]) * 10 + n;
    } else {
      ParseIndexKey(n / 10);
      var hd := IndexKey(n / 10);
      assert k == hd + [DigitChar(n % 10)];
      assert k[..|k| - 1] == hd;
      assert DigitsValue(k) == DigitsValue(hd) * 10 + n % 10;
    }
  }

  // ---------------------------------------------------------------------------
  // Property access.
  // ---------------------------------------------------------------------------

  /** Own-property read `v[key]` on a value that is neither null nor undefined. */
  function Member(v: Json, key: string): Option<Json> {
    match v
    case JObj(fields) => Lookup(fields, key)
    case JArr(items) =>
      if key == "length" then Some(JNum(|items|))
      else (match ParseIndex(key)
            case Some(i) => if i < |items| then Some(items[i]) else None
            case None => None)
    case JStr(s) =>
      if key == "length" then Some(JNum(|s|))
      else (match ParseIndex(key)
            case Some(i) => if i < |s| then Some(JStr([s[i]])) else None
            case None => None)
    case _ => None
  }

  /** True for the values JavaScript refuses to read a property from. */
  predicate Nullish(v: Option<Json>) {
    v.None? || v.value.JNull?
  }

  /** `v[key]` where `v` may be `undefined`: reading from null or undefined throws a TypeError. */
  function Access(v: Option<Json>, key: string): (r: Result<Option<Json>>)
    ensures r.Failure? <==> Nullish(v)
    ensures r.Success? && v.value.JObj? ==> r.value == Lookup(v.value.fields, key)
  {
    if Nullish(v) then Failure("TypeError: cannot read properties of " + (if v.None? then "undefined" else "null"))
    else Success(Member(v.value, key))
  }

  /** Array element `i` is found under its index key. */
  lemma MemberArrayIndex(items: seq<Json>, i: nat)
    requires i < |items|
    ensures Member(JArr(items), IndexKey(i)) == Some(items[i])
  {
    ParseIndexKey(i);
    assert IndexKey(i) != "length" by {
      assert IsDigit(IndexKey(i)[0]);
    }
  }

  /** The keys `for…in` visits on a value, in visiting order. */
  function ForInKeys(v: Json): seq<string> {
    match v
    case JObj(fields) => Keys(fields)
    case JArr(items) => seq(|items|, i requires 0 <= i < |items| => IndexKey(i))
    case JStr(s) => seq(|s|, i requires 0 <= i < |s| => IndexKey(i))
    case _ => []
  }
}
