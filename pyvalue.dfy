/**
 * Python values as the core sees them: the JSON-like values the attribute
 * classifier and the language model hand over, and Python dictionaries, which
 * keep their insertion order. A dictionary is an association list; lookups
 * find the first entry with the key, and assignment replaces that entry in
 * place or appends a new one, as `d[k] = v` does.
 */
module PyValue {
  import opened Optional

  type Dict<V> = seq<(string, V)>

  datatype Value =
    | NoneVal
    | BoolVal(b: bool)
    | IntVal(i: int)
    | FloatVal(f: real)
    | StrVal(s: string)
    | ListVal(items: seq<Value>)
    | DictVal(entries: Dict<Value>)

  /** `list(d.keys())`. */
  function Keys<V>(d: Dict<V>): (ks: seq<string>)
  {
    seq(|d|, i requires 0 <= i < |d| => d[i].0)
  }

  predicate HasKey<V>(d: Dict<V>, k: string) {
    k in Keys(d)
  }

  predicate DistinctKeys<V>(d: Dict<V>) {
    forall i, j :: 0 <= i < j < |d| ==> d[i].0 != d[j].0
  }

  /** The value of the first entry with key `k`: Python's `d[k]` when `k in d`. */
  function Get<V>(d: Dict<V>, k: string): (r: Option<V>)
    ensures r.Some? <==> HasKey(d, k)
  {
    if d == [] then None
    else if d[0].0 == k then assert Keys(d)[0] == k; Some(d[0].1)
    else assert Keys(d) == [d[0].0] + Keys(d[1..]); Get(d[1..], k)
  }

  /** `d.get(k)`: the value, or Python's `None` when the key is absent. */
  function GetOrNone(d: Dict<Value>, k: string): Value {
    match Get(d, k)
    case Some(v) => v
    case None => NoneVal
  }

  /** `d[k] = v`: replaces the first entry with key `k` in place, or appends. */
  function Put<V>(d: Dict<V>, k: string, v: V): (r: Dict<V>)
    ensures HasKey(d, k) ==> Keys(r) == Keys(d)
    ensures !HasKey(d, k) ==> r == d + [(k, v)]
  {
    if d == [] then [(k, v)]
    else if d[0].0 == k then
      assert Keys(d)[0] == k;
      assert Keys([(k, v)] + d[1..]) == Keys(d);
      [(k, v)] + d[1..]
    else
      var t := Put(d[1..], k, v);
      assert Keys(d) == [d[0].0] + Keys(d[1..]);
      assert Keys([d[0]] + t) == [d[0].0] + Keys(t) by { assert ([d[0]] + t)[1..] == t; }
      [d[0]] + t
  }

  /** After `d[k] = v`, looking up `k` gives `v` and every other key is as before. */
  lemma {:induction false} PutGet<V>(d: Dict<V>, k: string, v: V, k': string)
    ensures Get(Put(d, k, v), k') == if k' == k then Some(v) else Get(d, k')
  {
    if d != [] && d[0].0 != k {
      PutGet(d[1..], k, v, k');
      assert ([d[0]] + Put(d[1..], k, v))[1..] == Put(d[1..], k, v);
    }
  }

  /** After `d[k] = v` the dict has the keys it had, and `k`. */
  lemma PutHasKey<V>(d: Dict<V>, k: string, v: V, k': string)
    ensures HasKey(Put(d, k, v), k') <==> HasKey(d, k') || k' == k
  {
    if !HasKey(d, k) {
      KeysAppend(d, [(k, v)]);
      assert Keys([(k, v)]) == [k];
    }
  }

  /** In a dict with distinct keys, looking up an entry's key finds that entry. */
  lemma {:induction false} GetDistinct<V>(d: Dict<V>, i: nat)
    requires DistinctKeys(d) && i < |d|
    ensures Get(d, d[i].0) == Some(d[i].1)
  {
    if i > 0 {
      assert d[0].0 != d[i].0;
      GetDistinct(d[1..], i - 1);
    }
  }

  /** The keys of `a + b` are the keys of `a`, then those of `b`. */
  lemma {:induction false} KeysAppend<V>(a: Dict<V>, b: Dict<V>)
    ensures Keys(a + b) == Keys(a) + Keys(b)
  {
    if a != [] {
      KeysAppend(a[1..], b);
      assert (a + b)[1..] == a[1..] + b;
    }
  }

  /** Looking a key up in `a + b` finds it in `a` first. */
  lemma {:induction false} GetAppend<V>(a: Dict<V>, b: Dict<V>, k: string)
    ensures Get(a + b, k) == if HasKey(a, k) then Get(a, k) else Get(b, k)
  {
    if a == [] {
      assert a + b == b;
    } else if a[0].0 == k {
      assert (a + b)[0] == a[0];
      assert Keys(a)[0] == k;
    } else {
      GetAppend(a[1..], b, k);
      assert (a + b)[0] == a[0];
      assert (a + b)[1..] == a[1..] + b;
      assert Get(a + b, k) == Get(a[1..] + b, k);
      assert Keys(a) == [a[0].0] + Keys(a[1..]);
      assert HasKey(a, k) == HasKey(a[1..], k);
    }
  }

  /** Python truthiness, `bool(v)`. */
  predicate Truthy(v: Value) {
    match v
    case NoneVal => false
    case BoolVal(b) => b
    case IntVal(i) => i != 0
    case FloatVal(f) => f != 0.0
    case StrVal(s) => s != ""
    case ListVal(items) => items != []
    case DictVal(entries) => entries != []
  }

  /** Python's `v == n` for an integer `n`: `True == 1`, `1.0 == 1`, and a string,
      `None`, a list or a dict never equals a number. */
  predicate EqualsInt(v: Value, n: int) {
    match v
    case BoolVal(b) => (if b then 1 else 0) == n
    case IntVal(i) => i == n
    case FloatVal(f) => f == n as real
    case _ => false
  }

  /** The number a value stands for in a Python comparison such as `v > 0.7`;
      `None` when the comparison raises `TypeError`. */
  function AsNumber(v: Value): Option<real> {
    match v
    case BoolVal(b) => Some(if b then 1.0 else 0.0)
    case IntVal(i) => Some(i as real)
    case FloatVal(f) => Some(f)
    case _ => None
  }

  /** `type(v).__name__`, as it appears in Python's error messages. */
  function TypeName(v: Value): string {
    match v
    case NoneVal => "NoneType"
    case BoolVal(_) => "bool"
    case IntVal(_) => "int"
    case FloatVal(_) => "float"
    case StrVal(_) => "str"
    case ListVal(_) => "list"
    case DictVal(_) => "dict"
  }

  /** A list of strings as a Python value. */
  function StrList(items: seq<string>): (v: Value)
    ensures v.ListVal? && |v.items| == |items|
    ensures forall i :: 0 <= i < |items| ==> v.items[i] == StrVal(items[i])
  {
    if items == [] then ListVal([])
    else ListVal([StrVal(items[0])] + StrList(items[1..]).items)
  }

  /** Two lists of strings are the same Python value exactly when they are the same list. */
  lemma StrListInjective(a: seq<string>, b: seq<string>)
    requires StrList(a) == StrList(b)
    ensures a == b
  {
    assert |a| == |b|;
    forall i | 0 <= i < |a| ensures a[i] == b[i] {
      assert StrList(a).items[i] == StrVal(a[i]);
    }
  }
}
