/**
 The JavaScript values the plugin inspects: the plugin option, the host's
 `rollupOptions.input`, the `typeof … === "object"` test, truthiness for `||`,
 and `Object.entries`, including the index keys an array yields.
 */
module JsValues {

  /** One `[key, value]` pair as `Object.entries` yields it: an entry name and a source path. */
  datatype Entry = Entry(name: string, source: string)

  /** A JavaScript value, reduced to what the plugin can observe of it.
      `Object` holds the own enumerable string-keyed properties in the order
      `Object.entries` yields them; `Other` stands for a number, boolean,
      symbol or function and keeps only its truthiness. */
  datatype JsValue =
    | Undefined
    | Null
    | Str(s: string)
    | Object(entries: seq<Entry>)
    | Array(items: seq<string>)
    | Other(truthy: bool)

  /** The value has object type and is not null: plain objects and arrays alike. */
  predicate IsObject(v: JsValue) {
    v.Object? || v.Array?
  }

  /** JavaScript truthiness: the empty string, `undefined` and `null` are falsy,
      every object (even an empty one) is truthy. */
  predicate Truthy(v: JsValue) {
    match v
    case Undefined => false
    case Null => false
    case Str(s) => s != ""
    case Object(_) => true
    case Array(_) => true
    case Other(t) => t
  }

  /** JavaScript `a || b`. */
  function Or(a: JsValue, b: JsValue): JsValue {
    if Truthy(a) then a else b
  }

  predicate IsDigit(c: char) {
    '0' <= c <= '9'
  }

  predicate AllDigits(s: string) {
    forall i :: 0 <= i < |s| ==> IsDigit(s[i])
  }

  function DigitChar(d: nat): (c: char)
    requires d < 10
    ensures IsDigit(c)
    ensures c as int - '0' as int == d
  {
    ('0' as int + d) as char
  }

  /** The canonical decimal spelling of `n`, as JavaScript turns an array
      index into a property key: digits only, and no leading zero unless
      the number is zero itself. */
  function Decimal(n: nat): (s: string)
    ensures 1 <= |s|
    ensures AllDigits(s)
    ensures s[0] == '0' <==> n == 0
    decreases n
  {
    if n < 10 then [DigitChar(n)]
    else Decimal(n / 10) + [DigitChar(n % 10)]
  }

  /** Reads a string of decimal digits back as a number. */
  function ParseDecimal(s: string): nat
    requires AllDigits(s)
    decreases |s|
  {
    if |s| == 0 then 0
    else ParseDecimal(s[..|s| - 1]) * 10 + (s[|s| - 1] as int - '0' as int)
  }

  /** Reading back the decimal spelling of `n` gives `n`. */
  lemma {:induction false} ParseDecimalOfDecimal(n: nat)
    ensures ParseDecimal(Decimal(n)) == n
    decreases n
  {
    if n >= 10 {
      var s := Decimal(n);
      assert s[..|s| - 1] == Decimal(n / 10);
      ParseDecimalOfDecimal(n / 10);
    }
  }

  /** Two array indices never share a key. */
  lemma DecimalInjective(m: nat, n: nat)
    ensures Decimal(m) == Decimal(n) <==> m == n
  {
    ParseDecimalOfDecimal(m);
    ParseDecimalOfDecimal(n);
  }

  /** `Object.entries(v)` for an object-typed value: the object's own pairs,
      or for an array the pairs of index key and element. */
  function Entries(v: JsValue): (es: seq<Entry>)
    requires IsObject(v)
    ensures v.Object? ==> es == v.entries
    ensures v.Array? ==> |es| == |v.items|
    ensures v.Array? ==> forall i :: 0 <= i < |es| ==> es[i].name == Decimal(i) && es[i].source == v.items[i]
  {
    match v
    case Object(entries) => entries
    case Array(items) => seq(|items|, i requires 0 <= i < |items| => Entry(Decimal(i), items[i]))
  }

  /** For an array, `Object.entries` yields one entry per element, in index
      order, keyed by the index's decimal spelling, with pairwise distinct keys. */
  lemma ArrayEntries(items: seq<string>)
    ensures |Entries(Array(items))| == |items|
    ensures forall i :: 0 <= i < |items| ==>
      Entries(Array(items))[i].source == items[i] && ParseDecimal(Entries(Array(items))[i].name) == i
    ensures forall i, j :: 0 <= i < j < |items| ==>
      Entries(Array(items))[i].name != Entries(Array(items))[j].name
  {
    var es := Entries(Array(items));
    forall i | 0 <= i < |items|
      ensures ParseDecimal(es[i].name) == i
    {
      ParseDecimalOfDecimal(i);
    }
    forall i, j | 0 <= i < j < |items|
      ensures es[i].name != es[j].name
    {
      DecimalInjective(i, j);
    }
  }
}
