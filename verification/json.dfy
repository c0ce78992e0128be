/** The JavaScript values the session store reads out of JSON bodies and puts
    into request bodies, and the string conversion the browser applies when a
    value is written to `localStorage` or appended to a form. */
module Json {

  /** A JSON-ish value; numbers are integers in this model. `File` is a
      browser `File` object (a profile image). */
  datatype Value = Str(s: string) | Num(n: int) | Bool(b: bool) | Null | Undefined | File(name: string)

  /** A plain object, given as its own enumerable entries in `Object.keys` order. */
  type Object = seq<(string, Value)>

  /** Keys of a real object are distinct. */
  predicate DistinctKeys(obj: Object) {
    forall i, j :: 0 <= i < j < |obj| ==> obj[i].0 != obj[j].0
  }

  /** No entry before index `i` has key `key`. */
  predicate KeyAbsentBefore(obj: Object, key: string, i: int)
    requires 0 <= i <= |obj|
  {
    forall j :: 0 <= j < i ==> obj[j].0 != key
  }

  /** `obj[key]`: the value of the entry under `key` (the first one, should
      a key repeat), `undefined` when there is none. */
  function Get(obj: Object, key: string): (v: Value)
    ensures v != Undefined ==> (key, v) in obj
    ensures (forall e :: e in obj ==> e.0 != key) ==> v == Undefined
    ensures forall i :: 0 <= i < |obj| && obj[i].0 == key && KeyAbsentBefore(obj, key, i) ==> v == obj[i].1
  {
    if obj == [] then Undefined
    else if obj[0].0 == key then obj[0].1
    else
      var v := Get(obj[1..], key);
      assert forall i :: 1 <= i < |obj| && KeyAbsentBefore(obj, key, i) ==> KeyAbsentBefore(obj[1..], key, i - 1) by {
        forall i | 1 <= i < |obj| && KeyAbsentBefore(obj, key, i)
          ensures KeyAbsentBefore(obj[1..], key, i - 1)
        {
          assert forall j :: 0 <= j < i - 1 ==> obj[1..][j] == obj[j + 1];
        }
      }
      v
  }

  /** In an object with distinct keys, a read returns the value stored
      under the key. */
  lemma GetStored(obj: Object, key: string, x: Value)
    requires DistinctKeys(obj) && (key, x) in obj
    ensures Get(obj, key) == x
  {
    var i :| 0 <= i < |obj| && obj[i] == (key, x);
    assert KeyAbsentBefore(obj, key, i);
  }

  /** `sub` is `obj` with some entries dropped and the others kept in their
      order. */
  ghost predicate Subsequence(sub: Object, obj: Object)
    decreases |obj|
  {
    if sub == [] then true
    else if obj == [] then false
    else if sub[0] == obj[0] then Subsequence(sub[1..], obj[1..])
    else Subsequence(sub, obj[1..])
  }

  /** The rest object of `const { key, ...rest } = obj`: every entry except the
      one under `key`, in the same order. */
  function Without(obj: Object, key: string): (rest: Object)
    ensures |rest| <= |obj|
    ensures forall e :: e in rest <==> e in obj && e.0 != key
    ensures Subsequence(rest, obj)
  {
    if obj == [] then []
    else
      var tail := Without(obj[1..], key);
      if obj[0].0 == key then
        assert tail == [] || tail[0] != obj[0];
        tail
      else
        var rest := [obj[0]] + tail;
        assert rest[1..] == tail;
        rest
  }

  /** Reading the rest object gives `undefined` under the removed key and the
      original value under every other key. */
  lemma {:induction false} GetWithout(obj: Object, key: string, other: string)
    ensures Get(Without(obj, key), other) == if other == key then Undefined else Get(obj, other)
  {
    if obj != [] {
      var tail := Without(obj[1..], key);
      GetWithout(obj[1..], key, other);
      if obj[0].0 == key {
        assert Without(obj, key) == tail;
      } else {
        var rest := [obj[0]] + tail;
        assert Without(obj, key) == rest;
        assert rest[0] == obj[0] && rest[1..] == tail;
      }
    }
  }

  /** The rest object of a destructuring that pulls out `key`. */
  lemma WithoutKey(obj: Object, key: string)
    ensures Get(Without(obj, key), key) == Undefined
    ensures forall other :: other != key ==> Get(Without(obj, key), other) == Get(obj, other)
  {
    GetWithout(obj, key, key);
    forall other | other != key
      ensures Get(Without(obj, key), other) == Get(obj, other)
    {
      GetWithout(obj, key, other);
    }
  }

  function DigitChar(d: int): char
    requires 0 <= d < 10
  {
    "0123456789"[d]
  }

  /** Decimal digits of a natural number. */
  function NatText(n: nat): (s: string)
    ensures 1 <= |s|
    decreases n
  {
    if n < 10 then [DigitChar(n)] else NatText(n / 10) + [DigitChar(n % 10)]
  }

  /** `String(v)`: what `localStorage.setItem` stores and what `FormData.append`
      sends for a value that is not a file. */
  function ToText(v: Value): string {
    match v
    case Str(s) => s
    case Num(n) => if n < 0 then "-" + NatText(-n) else NatText(n)
    case Bool(b) => if b then "true" else "false"
    case Null => "null"
    case Undefined => "undefined"
    case File(_) => "[object File]"
  }
}
