/**
 * JavaScript values as the command-tree core handles them: the option,
 * configuration and argv objects, task results, and the lodash `_.merge`
 * that combines them.
 */
module JsValue {

  datatype Option<+T> = None | Some(value: T)

  datatype Result<+T, +E> = Ok(value: T) | Err(error: E)

  /** A function value. No code inspects a function's source text, so a
      function is an opaque tag saying where it came from. */
  datatype FnTag =
    | UserFn(id: nat)               // a function written by a spec's author
    | InvokeBound(command: string)  // `host._invoke.bind(host, command)`
    | Decorated(inner: Value)       // the wrapper returned by `_decorateHandlerConfig(inner)`

  /** A JavaScript value. Numbers are integers; an object is its enumerable
      string-keyed properties (their order is not part of the value). */
  datatype Value =
    | Undefined
    | Null
    | Bool(b: bool)
    | Num(n: int)
    | Str(s: string)
    | Arr(items: seq<Value>)
    | Obj(fields: map<string, Value>)
    | Fn(tag: FnTag)

  /** JavaScript truthiness. */
  predicate Truthy(v: Value)
  {
    match v
    case Undefined => false
    case Null => false
    case Bool(b) => b
    case Num(n) => n != 0
    case Str(s) => s != ""
    case _ => true
  }

  /** Property read `m[k]` on a plain object: a missing key reads as undefined. */
  function Get(m: map<string, Value>, k: string): Value
  {
    if k in m then m[k] else Undefined
  }

  /** The enumerable properties of a value used as an object (`{}` for anything else). */
  function FieldsOf(v: Value): map<string, Value>
  {
    if v.Obj? then v.fields else map[]
  }

  predicate NoDuplicates<T(==)>(s: seq<T>)
  {
    forall i, j :: 0 <= i < j < |s| ==> s[i] != s[j]
  }

  /** `keys` lists the set `s`, each element once. */
  predicate IsEnumeration(keys: seq<string>, s: set<string>)
  {
    NoDuplicates(keys) && (set k | k in keys) == s
  }

  /** A sequence without duplicates has as many elements as its set. */
  lemma {:induction false} DistinctCardinality<T>(s: seq<T>)
    requires NoDuplicates(s)
    ensures |set x | x in s| == |s|
  {
    if s != [] {
      var rest := s[1..];
      assert NoDuplicates(rest) by {
        forall i, j | 0 <= i < j < |rest| ensures rest[i] != rest[j] {
          assert rest[i] == s[i + 1] && rest[j] == s[j + 1];
        }
      }
      DistinctCardinality(rest);
      assert s[0] !in rest by {
        forall j | 0 <= j < |rest| ensures rest[j] != s[0] {
          assert rest[j] == s[j + 1];
        }
      }
      assert (set x | x in s) == (set x | x in rest) + {s[0]};
    }
  }

  function DigitChar(d: nat): char
    requires d < 10
  {
    "0123456789"[d]
  }

  function NatToString(n: nat): (r: string)
    ensures |r| > 0
    decreases n
  {
    if n < 10 then [DigitChar(n)] else NatToString(n / 10) + [DigitChar(n % 10)]
  }

  function IntToString(i: int): string
  {
    if i < 0 then "-" + NatToString(-i) else NatToString(i)
  }

  /** `parts.join(sep)` on strings. */
  function Join(parts: seq<string>, sep: string): string
  {
    if |parts| == 0 then ""
    else if |parts| == 1 then parts[0]
    else parts[0] + sep + Join(parts[1..], sep)
  }

  lemma {:induction false} JoinAppend(a: seq<string>, b: seq<string>, sep: string)
    requires a != [] && b != []
    ensures Join(a + b, sep) == Join(a, sep) + sep + Join(b, sep)
  {
    if |a| == 1 {
      assert a + b == [a[0]] + b;
    } else {
      assert (a + b)[1..] == a[1..] + b;
      JoinAppend(a[1..], b, sep);
    }
  }

  /** `String(v)`: the text a value becomes in a template literal, a
      `String.prototype.replace` callback result, or an array join. */
  function ToStr(v: Value): string
    decreases v
  {
    match v
    case Undefined => "undefined"
    case Null => "null"
    case Bool(b) => if b then "true" else "false"
    case Num(n) => IntToString(n)
    case Str(s) => s
    case Arr(items) =>
      Join(seq(|items|, i requires 0 <= i < |items| =>
        if items[i].Undefined? || items[i].Null? then "" else ToStr(items[i])), ",")
    case Obj(_) => "[object Object]"
    case Fn(_) => "function"
  }

  /** How `Array.prototype.join` renders one element: null and undefined become "". */
  function ElementString(v: Value): string
  {
    if v.Undefined? || v.Null? then "" else ToStr(v)
  }

  // ---------------------------------------------------------------------
  // lodash `_.merge`
  // ---------------------------------------------------------------------

  /** A value `_.merge` copies as it is: neither a container it recurses into
      nor `undefined`, which it skips when the destination has the key. */
  predicate IsLeaf(v: Value)
  {
    !(v.Obj? || v.Arr? || v.Undefined?)
  }

  function Lookup(m: map<string, Value>, k: string): Option<Value>
  {
    if k in m then Some(m[k]) else None
  }

  /** The value `_.merge` leaves at a key whose destination value is `d`
      (None: the destination lacks the key) and whose source value is `s`. */
  function MergeValue(d: Option<Value>, s: Value): (r: Value)
    ensures IsLeaf(s) ==> r == s
    ensures s.Undefined? ==> r == (if d.Some? then d.value else Undefined)
    ensures d.None? ==> r == s
    ensures s.Obj? ==> r.Obj? && r.fields.Keys == (if d.Some? && d.value.Obj? then d.value.fields.Keys else {}) + s.fields.Keys
    decreases s, 1
  {
    match s
    case Undefined => if d.Some? then d.value else Undefined
    case Obj(sf) => Obj(MergeMaps(if d.Some? && d.value.Obj? then d.value.fields else map[], sf))
    case Arr(ss) => Arr(MergeSeqs(if d.Some? && d.value.Arr? then d.value.items else [], ss))
    case _ => s
  }

  /** `_.merge(dst, src)` on two plain objects, as the value `dst` holds afterwards. */
  function MergeMaps(dst: map<string, Value>, src: map<string, Value>): (r: map<string, Value>)
    ensures r.Keys == dst.Keys + src.Keys
    ensures forall k {:trigger r[k]} :: k in dst && k !in src ==> r[k] == dst[k]
    ensures forall k {:trigger r[k]} :: k in src ==> r[k] == MergeValue(Lookup(dst, k), src[k])
    ensures dst == map[] ==> r == src
    decreases Obj(src), 0
  {
    map k | k in dst.Keys + src.Keys ::
      if k in src then MergeValue(Lookup(dst, k), src[k]) else dst[k]
  }

  function Max(a: nat, b: nat): nat { if a < b then b else a }

  /** `_.merge` of a source array into a destination array, index by index. */
  function MergeSeqs(dst: seq<Value>, src: seq<Value>): (r: seq<Value>)
    ensures |r| == Max(|dst|, |src|)
    ensures forall i :: |src| <= i < |dst| ==> r[i] == dst[i]
    ensures forall i :: 0 <= i < |src| ==> r[i] == MergeValue(if i < |dst| then Some(dst[i]) else None, src[i])
    ensures dst == [] ==> r == src
    decreases Arr(src), 0
  {
    seq(Max(|dst|, |src|), i requires 0 <= i < Max(|dst|, |src|) =>
      if i < |src| then MergeValue(if i < |dst| then Some(dst[i]) else None, src[i]) else dst[i])
  }

  /** Merging a value onto an equal value changes nothing. */
  lemma {:induction false} MergeSelf(v: Value)
    ensures MergeValue(Some(v), v) == v
    decreases v
  {
    match v
    case Obj(f) =>
      forall k | k in f ensures MergeValue(Lookup(f, k), f[k]) == f[k] {
        MergeSelf(f[k]);
      }
      assert MergeMaps(f, f) == f;
    case Arr(items) =>
      forall i | 0 <= i < |items| ensures MergeValue(Some(items[i]), items[i]) == items[i] {
        MergeSelf(items[i]);
      }
      assert MergeSeqs(items, items) == items;
    case _ =>
  }

  /** When no source value is a container or undefined, `_.merge` is the
      right-biased union of the two objects. */
  lemma ShallowMerge(dst: map<string, Value>, src: map<string, Value>)
    requires forall k :: k in src ==> IsLeaf(src[k])
    ensures MergeMaps(dst, src) == dst + src
  {
  }
}
