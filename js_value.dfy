/** The JavaScript values the profile component manipulates, and the pieces of the
    language's semantics its handlers rely on: truthiness (`!!v`, `&&`, `||`),
    property access (`v[key]`, `v.length`), object spread (`{...v}`) and the
    loose numeric comparison `v >= k`. Numbers are integers here: the component
    only ever compares lengths and counts. */
module JsValue {
  import opened JsString
  import opened JsArray

  datatype Option<T> = None | Some(value: T)

  datatype Value =
    | Undefined
    | Null
    | Bool(b: bool)
    | Num(n: int)
    | Str(s: string)
    | Arr(items: seq<Value>)
    | Obj(fields: map<string, Value>)

  /** A plain object's own properties. Key order is not modelled. */
  type Record = map<string, Value>

  /** `v == null` (true for both `null` and `undefined`): property access on it throws. */
  predicate Nullish(v: Value) {
    v.Undefined? || v.Null?
  }

  /** `!!v`: every value is truthy except `undefined`, `null`, `false`, `0` and `""`. */
  predicate Truthy(v: Value)
    ensures !Truthy(v) <==> v == Undefined || v == Null || v == Bool(false) || v == Num(0) || v == Str("")
  {
    match v
    case Undefined => false
    case Null => false
    case Bool(b) => b
    case Num(n) => n != 0
    case Str(s) => s != ""
    case Arr(_) => true
    case Obj(_) => true
  }

  /** The own, enumerable, index-keyed properties of an array-like sequence:
      element `i` under the key `String(i)`. */
  function IndexProperties(items: seq<Value>): (m: Record)
    ensures forall i :: 0 <= i < |items| ==> Decimal(i) in m && m[Decimal(i)] == items[i]
    ensures forall k :: k in m ==> exists i :: 0 <= i < |items| && k == Decimal(i)
  {
    DecimalsDistinct();
    map i | 0 <= i < |items| :: Decimal(i) := items[i]
  }

  /** The characters of a string as one-character strings, one per code point.
      JavaScript indexes a string by UTF-16 code units, so there a character outside
      the Basic Multilingual Plane is two elements (its surrogate halves). */
  function Chars(s: string): (r: seq<Value>)
    ensures |r| == |s| && forall i :: 0 <= i < |s| ==> r[i] == Str([s[i]])
  {
    seq(|s|, i requires 0 <= i < |s| => Str([s[i]]))
  }

  /** `{...v}`: the own enumerable properties of `v`. Spreading `null`, `undefined`,
      a boolean or a number gives no properties. */
  function Spread(v: Value): (r: Record)
    ensures v.Obj? ==> r == v.fields
    ensures !v.Obj? && !v.Arr? && !v.Str? ==> r == map[]
  {
    match v
    case Obj(m) => m
    case Arr(a) => IndexProperties(a)
    case Str(s) => IndexProperties(Chars(s))
    case _ => map[]
  }

  /** `v[key]` for a non-nullish `v` (on `null` or `undefined` it throws a TypeError).
      Own properties only: inherited prototype members are not modelled. */
  function Member(v: Value, key: string): (r: Value)
    requires !Nullish(v)
    ensures v.Obj? ==> r == Get(v.fields, key)
    ensures v.Arr? && key == "length" ==> r == Num(|v.items|)
    ensures v.Str? && key == "length" ==> r == Num(Utf16Length(v.s))
    ensures v.Bool? || v.Num? ==> r == Undefined
  {
    match v
    case Obj(m) => if key in m then m[key] else Undefined
    case Arr(a) => if key == "length" then Num(|a|) else if key in Spread(v) then Spread(v)[key] else Undefined
    case Str(s) => if key == "length" then Num(Utf16Length(s)) else if key in Spread(v) then Spread(v)[key] else Undefined
    case _ => Undefined
  }

  /** `s.length`: the number of UTF-16 code units of `s`. A character above U+FFFF
      takes two (a surrogate pair), every other character one. */
  function Utf16Length(s: string): (n: nat)
    ensures |s| <= n <= 2 * |s|
    ensures (forall i :: 0 <= i < |s| ==> s[i] as int <= 0xFFFF) ==> n == |s|
    ensures (forall i :: 0 <= i < |s| ==> s[i] as int > 0xFFFF) ==> n == 2 * |s|
    ensures |s| == 1 ==> n == (if s[0] as int > 0xFFFF then 2 else 1)
  {
    if s == [] then 0
    else Utf16Length(s[..|s| - 1]) + (if s[|s| - 1] as int > 0xFFFF then 2 else 1)
  }

  /** The code units of a concatenation are those of its parts; with the one-character
      case this fixes the length of every string. */
  lemma {:induction false} Utf16LengthAppend(a: string, b: string)
    ensures Utf16Length(a + b) == Utf16Length(a) + Utf16Length(b)
  {
    if b == [] {
      assert a + b == a;
    } else {
      var init := b[..|b| - 1];
      assert (a + b)[..|a + b| - 1] == a + init;
      Utf16LengthAppend(a, init);
    }
  }

  /** `obj[key]` for a plain object given by its properties. */
  function Get(r: Record, key: string): Value {
    if key in r then r[key] else Undefined
  }

  /** Element `i` of an array is what `a[String(i)]` reads. */
  lemma MemberAtIndex(a: seq<Value>, i: nat)
    requires i < |a|
    ensures Member(Arr(a), Decimal(i)) == a[i]
  {
    assert Decimal(i) != "length" by {
      assert |Decimal(i)| == 6 ==> i >= 10;
      assert Decimal(i)[|Decimal(i)| - 1] == DigitChar(i % 10);
    }
  }

  /** `ToNumber(v)` where it is an integer; `None` stands for NaN. Strings, arrays
      and objects are converted through their string form in JavaScript; the model
      treats them as NaN. */
  function LooseNumber(v: Value): Option<int> {
    match v
    case Num(n) => Some(n)
    case Null => Some(0)
    case Bool(b) => Some(if b then 1 else 0)
    case _ => None
  }

  /** `v >= k` for a number literal `k`: false when `v` converts to NaN. */
  predicate AtLeast(v: Value, k: int) {
    LooseNumber(v).Some? && LooseNumber(v).value >= k
  }

  /** `v > k` for a number literal `k`: false when `v` converts to NaN. */
  predicate MoreThan(v: Value, k: int) {
    LooseNumber(v).Some? && LooseNumber(v).value > k
  }

  /** All keys other than `key` are present in both records or in neither, with equal values. */
  ghost predicate SameExcept(a: Record, b: Record, key: string) {
    forall k :: k != key ==> (k in a <==> k in b) && (k in a ==> a[k] == b[k])
  }

  /** The elements of `xs` other than `v`, in their order and with their multiplicity:
      `xs.filter(x => x !== v)` for a string `v`, whose strict inequality coincides
      with structural inequality against a string. */
  function Without(xs: seq<Value>, v: Value): (r: seq<Value>)
    ensures v !in r
    ensures forall x :: x in r <==> x in xs && x != v
    ensures IsSubsequence(r, xs)
    ensures NoDuplicates(xs) ==> NoDuplicates(r)
    ensures multiset(r) == multiset(xs)[v := 0]
  {
    FilterKeepsCounts(xs, x => x != v);
    FilterKeepsAccepted(xs, x => x != v);
    FilterKeepsOrder(xs, x => x != v);
    FilterKeepsDistinct(xs, x => x != v);
    Filter(xs, x => x != v)
  }

  /** Filtering out a value that does not occur changes nothing. */
  lemma WithoutAbsent(xs: seq<Value>, v: Value)
    requires v !in xs
    ensures Without(xs, v) == xs
  {
    FilterAll(xs, x => x != v);
  }

  /** Filtering out a value distributes over concatenation. */
  lemma WithoutAppend(xs: seq<Value>, ys: seq<Value>, v: Value)
    ensures Without(xs + ys, v) == Without(xs, v) + Without(ys, v)
  {
    FilterAppend(xs, ys, x => x != v);
  }
}
