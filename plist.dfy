/**
 * Property-list values as CFPropertyList's `native_types` hands them to the
 * analyzer, the ordered hashes the analyzer builds from them, and the rule that
 * keeps containers and turns every other value into its `to_s`.
 */
module Plist {
  import opened Wrappers
  import opened Zip
  import opened Certificate

  /** A decoded plist value; a real or a date carries the text Ruby's `to_s` renders it as. */
  datatype Value =
    | Str(s: string)
    | Bool(b: bool)
    | Int(i: int)
    | Real(rendered: string)
    | Date(rendered: string)
    | Data(bytes: seq<byte>)
    | Array(items: seq<Value>)
    | Dict(entries: seq<(string, Value)>)

  predicate IsContainer(v: Value) {
    v.Array? || v.Dict?
  }

  /** What the analyzer stores: a container, or a string. */
  predicate IsNormal(v: Value) {
    IsContainer(v) || v.Str?
  }

  function DigitChar(d: nat): char
    requires d < 10
  {
    ('0' as int + d) as char
  }

  function NatToString(n: nat): (r: string)
    ensures r != [] && forall i :: 0 <= i < |r| ==> '0' <= r[i] <= '9'
  {
    if n < 10 then [DigitChar(n)] else NatToString(n / 10) + [DigitChar(n % 10)]
  }

  predicate IsDecimal(s: string) {
    forall i :: 0 <= i < |s| ==> '0' <= s[i] <= '9'
  }

  /** The number a string of decimal digits denotes. */
  function DecimalValue(s: string): nat
    requires IsDecimal(s)
  {
    if s == [] then 0 else DecimalValue(s[..|s| - 1]) * 10 + (s[|s| - 1] as int - '0' as int)
  }

  /** Reading the digits back gives the number. */
  lemma {:induction false} NatToStringValue(n: nat)
    ensures DecimalValue(NatToString(n)) == n
  {
    if n >= 10 {
      var s := NatToString(n);
      assert s[..|s| - 1] == NatToString(n / 10);
      NatToStringValue(n / 10);
    }
  }

  /** `Integer#to_s`: a '-' exactly for a negative number, then the decimal digits of its magnitude. */
  function IntToString(i: int): (r: string)
    ensures r != [] && (r[0] == '-' <==> i < 0)
    ensures i >= 0 ==> IsDecimal(r) && DecimalValue(r) == i
    ensures i < 0 ==> IsDecimal(r[1..]) && DecimalValue(r[1..]) == -i
  {
    NatToStringValue(if i < 0 then -i else i);
    if i < 0 then "-" + NatToString(-i) else NatToString(i)
  }

  /** Ruby's `to_s` on a scalar value; a binary string's bytes become its characters. */
  function ToS(v: Value): (r: string)
    requires !IsContainer(v)
    ensures v.Str? ==> r == v.s
    ensures v.Bool? ==> r == (if v.b then "true" else "false")
    ensures v.Int? ==> r != [] && (r[0] == '-' <==> v.i < 0)
    ensures v.Int? ==> var digits := if v.i < 0 then r[1..] else r;
      IsDecimal(digits) && DecimalValue(digits) == (if v.i < 0 then -v.i else v.i)
    ensures v.Real? || v.Date? ==> r == v.rendered
    ensures v.Data? ==> |r| == |v.bytes| && forall k :: 0 <= k < |r| ==> r[k] as int == v.bytes[k] as int
  {
    match v
    case Str(s) => s
    case Bool(b) => if b then "true" else "false"
    case Int(i) => IntToString(i)
    case Real(t) => t
    case Date(t) => t
    case Data(bs) => seq(|bs|, k requires 0 <= k < |bs| => bs[k] as int as char)
  }

  /** The `case value when Hash, Array then value else value.to_s` rule. */
  function Normalize(v: Value): (r: Value)
    ensures IsNormal(r)
    ensures IsContainer(v) ==> r == v
    ensures !IsContainer(v) ==> r == Str(ToS(v))
  {
    if IsContainer(v) then v else Str(ToS(v))
  }

  // ---------------------------------------------------------------------------
  // Ordered hashes

  /** A key of a content hash: a plist key, or the :cert_info symbol. */
  datatype Key = Name(name: string) | CertInfoKey

  /** A value of a content hash: a plist value, or the certificate record under :cert_info. */
  datatype Field = Plain(value: Value) | Cert(info: CertInfo)

  /** A Ruby Hash: its pairs in insertion order. */
  type Hash = seq<(Key, Field)>

  /** The keys of a list of pairs, in order: a Hash's, or a decoded dictionary's. */
  function Keys<K, V>(h: seq<(K, V)>): (ks: seq<K>)
    ensures |ks| == |h| && forall i :: 0 <= i < |h| ==> ks[i] == h[i].0
  {
    seq(|h|, i requires 0 <= i < |h| => h[i].0)
  }

  predicate UniqueKeys<K(==), V>(h: seq<(K, V)>) {
    forall i, j :: 0 <= i < j < |h| ==> h[i].0 != h[j].0
  }

  /** The position of the first pair with key k. */
  function KeyIndex(h: Hash, k: Key): (i: nat)
    requires k in Keys(h)
    ensures i < |h| && h[i].0 == k
    ensures forall j :: 0 <= j < i ==> h[j].0 != k
  {
    if h[0].0 == k then 0
    else
      var j :| 0 <= j < |h| && Keys(h)[j] == k;
      assert Keys(h[1..])[j - 1] == k;
      1 + KeyIndex(h[1..], k)
  }

  lemma KeyIndexAppend(h: Hash, t: Hash, k: Key)
    requires k in Keys(h)
    ensures k in Keys(h + t) && KeyIndex(h + t, k) == KeyIndex(h, k)
  {
    var i := KeyIndex(h, k);
    assert (h + t)[i] == h[i];
    assert Keys(h + t)[i] == k;
  }

  /** `h[k]`: the value stored under k, if any. */
  function Lookup(h: Hash, k: Key): (r: Option<Field>)
    ensures r.None? <==> k !in Keys(h)
    ensures r.Some? ==> (k, r.value) in h
  {
    if k in Keys(h) then Some(h[KeyIndex(h, k)].1) else None
  }

  /** Ruby's `h[k] = f`: replaces the value in place when k is present, appends otherwise. */
  function Put(h: Hash, k: Key, f: Field): (r: Hash)
    ensures k in Keys(h) ==> |r| == |h| && Keys(r) == Keys(h)
    ensures k !in Keys(h) ==> r == h + [(k, f)]
  {
    if k in Keys(h) then
      var i := KeyIndex(h, k);
      var r := h[i := (k, f)];
      assert Keys(r) == Keys(h);
      r
    else
      h + [(k, f)]
  }

  /** After `h[k] = f`, k maps to f and every other key to what it mapped to before. */
  lemma PutLookup(h: Hash, k: Key, f: Field)
    ensures Lookup(Put(h, k, f), k) == Some(f)
    ensures forall k' :: k' != k ==> Lookup(Put(h, k, f), k') == Lookup(h, k')
  {
    var r := Put(h, k, f);
    if k in Keys(h) {
      assert KeyIndex(r, k) == KeyIndex(h, k);
    } else {
      assert Keys(r) == Keys(h) + [k];
      forall k' | k' in Keys(h)
        ensures KeyIndex(r, k') == KeyIndex(h, k')
      {
        KeyIndexAppend(h, [(k, f)], k');
      }
    }
  }

  /** Putting never duplicates a key: a hash built by `h[k] = f` has distinct keys. */
  lemma PutKeepsUniqueKeys(h: Hash, k: Key, f: Field)
    requires UniqueKeys(h)
    ensures UniqueKeys(Put(h, k, f))
  {
    if k !in Keys(h) {
      var r := Put(h, k, f);
      forall i, j | 0 <= i < j < |r|
        ensures r[i].0 != r[j].0
      {
        if j == |h| {
          assert Keys(h)[i] == r[i].0;
        }
      }
    }
  }

  /** The keys after `h[k] = f` are the old keys and k. */
  lemma PutKeys(h: Hash, k: Key, f: Field)
    ensures forall k' :: k' in Keys(Put(h, k, f)) <==> k' in Keys(h) || k' == k
  {
    if k !in Keys(h) {
      assert Keys(Put(h, k, f)) == Keys(h) + [k];
    }
  }

  /** After `h[k] = f` every pair is an old pair or (k, f). */
  lemma PutPairs(h: Hash, k: Key, f: Field)
    ensures forall p :: p in Put(h, k, f) ==> p in h || p == (k, f)
  {
  }
}
