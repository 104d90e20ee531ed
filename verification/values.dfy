/** Python values as they occur in the configuration document, in the raw
    inventory records and in a node's attributes, together with the few
    built-in operations of the interpreter that the core relies on
    (truthiness, `str()`, `int()`, dictionary lookup, `utils.w_list`). */
module Values {

  /** A dynamically typed Python value. A dictionary is an ordered sequence of
      entries: the order of the sequence is the iteration order of the dict,
      and a lookup finds the first entry whose key is equal. */
  datatype Value =
    | Null
    | Bool(b: bool)
    | Int(i: int)
    | Str(s: string)
    | List(items: seq<Value>)
    | Dict(entries: seq<Entry>)

  datatype Entry = Entry(key: Value, val: Value)

  datatype Option<T> = None | Some(value: T)

  /** The Python exceptions the core can raise on the paths that are modelled. */
  datatype Error =
    | KeyError(key: Value)
    | TypeError(what: string)
    | ValueError(what: string)
    | AttributeError(name: string)
    | IndexError
    | AllNodesFiltered
    | Exit(code: int)

  datatype Result<T> = Ok(value: T) | Err(error: Error)

  /** The outcome of a step that returns nothing but may raise. */
  datatype Status = Success | Failure(error: Error)

  /** A value that can be a dict key or a set element: lists and dicts
      cannot be hashed. */
  predicate Hashable(v: Value) {
    !v.List? && !v.Dict?
  }

  /** Position of the first entry with key `k`, or `|es|` when there is none. */
  function IndexOf(es: seq<Entry>, k: Value): (i: nat)
    ensures i <= |es|
    ensures i < |es| ==> es[i].key == k
    ensures forall j :: 0 <= j < i ==> es[j].key != k
  {
    if es == [] then 0
    else if es[0].key == k then 0
    else 1 + IndexOf(es[1..], k)
  }

  /** `k in d` for a dict `d`. */
  predicate HasKey(d: Value, k: Value) {
    d.Dict? && IndexOf(d.entries, k) < |d.entries|
  }

  /** `d[k]`. */
  function Get(d: Value, k: Value): Value
    requires HasKey(d, k)
  {
    d.entries[IndexOf(d.entries, k)].val
  }

  /** The keys of a dict in iteration order (`list(d)`). */
  function Keys(d: Value): (ks: seq<Value>)
    ensures d.Dict? ==> |ks| == |d.entries|
    ensures d.Dict? ==> forall i :: 0 <= i < |ks| ==> ks[i] == d.entries[i].key
    ensures !d.Dict? ==> ks == []
  {
    if d.Dict? then KeysOf(d.entries) else []
  }

  function KeysOf(es: seq<Entry>): (ks: seq<Value>)
    ensures |ks| == |es|
    ensures forall i :: 0 <= i < |es| ==> ks[i] == es[i].key
  {
    if es == [] then [] else [es[0].key] + KeysOf(es[1..])
  }

  lemma {:induction false} InKeysIffHasKey(d: Value, k: Value)
    ensures k in Keys(d) <==> HasKey(d, k)
  {
    if d.Dict? {
      if k in Keys(d) {
        var i :| 0 <= i < |Keys(d)| && Keys(d)[i] == k;
        assert d.entries[i].key == k;
        assert IndexOf(d.entries, k) <= i;
      }
      if HasKey(d, k) {
        assert Keys(d)[IndexOf(d.entries, k)] == k;
      }
    }
  }

  /** Python truthiness (`bool(v)`). */
  predicate Truthy(v: Value) {
    match v
    case Null => false
    case Bool(b) => b
    case Int(i) => i != 0
    case Str(s) => s != ""
    case List(items) => items != []
    case Dict(entries) => entries != []
  }

  /** The distinct elements of `s` in the order of their first occurrence:
      the keys of a dict built from `s` (`dict((x, None) for x in s)`). */
  function Dedup<T(==,!new)>(s: seq<T>): (r: seq<T>)
    ensures forall x :: x in r <==> x in s
    ensures forall i, j :: 0 <= i < j < |r| ==> r[i] != r[j]
    decreases |s|
  {
    if s == [] then []
    else
      var init := s[..|s| - 1];
      assert s == init + [s[|s| - 1]];
      var t := Dedup(init);
      if s[|s| - 1] in t then t else t + [s[|s| - 1]]
  }

  /** `utils.w_list`: a list is kept as it is, any other value is wrapped into
      a one-element list. */
  function WList(v: Value): (r: seq<Value>)
    ensures v.List? ==> r == v.items
    ensures !v.List? ==> r == [v]
  {
    if v.List? then v.items else [v]
  }

  predicate StartsWith(s: string, p: string) {
    |p| <= |s| && s[..|p|] == p
  }

  /** `s[n:]`, which is empty when `n` is past the end. */
  function Drop(s: string, n: nat): (r: string)
    ensures n <= |s| ==> r == s[n..]
    ensures n > |s| ==> r == ""
  {
    if n <= |s| then s[n..] else ""
  }

  // ---------------------------------------------------------------------
  // Decimal representation: `str()` of an int and `int()` of a string.

  function DigitChar(d: nat): char
    requires d < 10
  {
    "0123456789"[d]
  }

  predicate IsDigit(c: char) {
    '0' <= c <= '9'
  }

  function DigitValue(c: char): (d: nat)
    requires IsDigit(c)
    ensures d < 10
  {
    (c as int) - ('0' as int)
  }

  /** The decimal digits of a natural number, most significant first. */
  function NatToString(n: nat): (s: string)
    ensures |s| >= 1
    ensures forall i :: 0 <= i < |s| ==> IsDigit(s[i])
    decreases n
  {
    if n < 10 then [DigitChar(n)] else NatToString(n / 10) + [DigitChar(n % 10)]
  }

  function IntToString(i: int): string {
    if i < 0 then "-" + NatToString(-i) else NatToString(i)
  }

  /** The value of a non-empty string of decimal digits. */
  function DigitsValue(s: string): nat
    requires |s| >= 1
    requires forall i :: 0 <= i < |s| ==> IsDigit(s[i])
    decreases |s|
  {
    if |s| == 1 then DigitValue(s[0])
    else DigitsValue(s[..|s| - 1]) * 10 + DigitValue(s[|s| - 1])
  }

  predicate AllDigits(s: string) {
    |s| >= 1 && forall i :: 0 <= i < |s| ==> IsDigit(s[i])
  }

  /** `int(s)` for a string: an optional sign followed by decimal digits;
      anything else is rejected as Python rejects it with ValueError. */
  function ParseInt(s: string): Option<int> {
    if |s| >= 1 && (s[0] == '-' || s[0] == '+') && AllDigits(s[1..]) then
      Some(if s[0] == '-' then 0 - DigitsValue(s[1..]) as int else DigitsValue(s[1..]))
    else if AllDigits(s) then Some(DigitsValue(s))
    else None
  }

  lemma {:induction false} DigitsOfNat(n: nat)
    ensures DigitsValue(NatToString(n)) == n
    decreases n
  {
    if n >= 10 {
      var s := NatToString(n);
      DigitsOfNat(n / 10);
      assert s[..|s| - 1] == NatToString(n / 10);
      assert DigitValue(s[|s| - 1]) == n % 10;
    }
  }

  /** `int(str(i)) == i`: the decimal rendering used in output names is read
      back by `int()` to the same number. */
  lemma ParseIntOfIntToString(i: int)
    ensures ParseInt(IntToString(i)) == Some(i)
  {
    if i < 0 {
      ParseSigned(i);
    } else {
      ParseDigits(i);
    }
  }

  /** A string of digits reads back as the number it renders. */
  lemma ParseDigits(n: nat)
    ensures ParseInt(IntToString(n)) == Some(n)
  {
    var s := NatToString(n);
    DigitsOfNat(n);
    assert IntToString(n) == s && AllDigits(s) && IsDigit(s[0]);
  }

  /** A minus sign before the digits reads back as the negated number. */
  lemma ParseSigned(i: int)
    requires i < 0
    ensures ParseInt(IntToString(i)) == Some(i)
  {
    var s := IntToString(i);
    assert s[0] == '-' && s[1..] == NatToString(-i);
    DigitsOfNat(-i);
  }

  // ---------------------------------------------------------------------
  // `str()` and `repr()`.

  /** `str(v)`, as `'%s' % v` renders it. */
  function Show(v: Value): string {
    match v
    case Str(s) => s
    case _ => Repr(v)
  }

  /** `repr(v)`; strings are quoted without escaping. */
  function Repr(v: Value): string {
    match v
    case Null => "None"
    case Bool(b) => if b then "True" else "False"
    case Int(i) => IntToString(i)
    case Str(s) => "'" + s + "'"
    case List(items) => "[" + ReprItems(v, 0) + "]"
    case Dict(entries) => "{" + ReprEntries(v, 0) + "}"
  }

  function ReprItems(l: Value, from: nat): string
    requires l.List?
    decreases l, |l.items| - from
  {
    if from >= |l.items| then ""
    else (if from == 0 then "" else ", ") + Repr(l.items[from]) + ReprItems(l, from + 1)
  }

  function ReprEntries(d: Value, from: nat): string
    requires d.Dict?
    decreases d, |d.entries| - from
  {
    if from >= |d.entries| then ""
    else (if from == 0 then "" else ", ") + Repr(d.entries[from].key) + ": "
         + Repr(d.entries[from].val) + ReprEntries(d, from + 1)
  }
}
