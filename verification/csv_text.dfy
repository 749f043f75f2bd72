/**
 `ensure_unicode_for_csv`: under Python 2 the CSV writer must be given byte
 strings, so every text scalar reachable through dicts and lists is replaced
 by its UTF-8 encoding; under Python 3 the value is passed back as it is.
 */
module CsvText {
  import Utf8
  import opened Wrappers

  /** A Python value as the normaliser sees it. A dict is its sequence of
      (key, value) pairs in iteration order; `Int`, `Bytes`, `Tuple` and
      `Other` (any other object, by its repr) are never descended into. */
  datatype Value =
    | Dict(entries: seq<(Value, Value)>)
    | List(elements: seq<Value>)
    | Text(chars: seq<Utf8.ScalarValue>)
    | Bytes(octets: seq<Utf8.Byte>)
    | Int(n: int)
    | Tuple(items: seq<Value>)
    | Other(repr: string)

  /** No text scalar is reachable from `v` through dicts and lists. */
  predicate TextFree(v: Value) {
    match v
    case Dict(es) => forall i :: 0 <= i < |es| ==> TextFree(es[i].0) && TextFree(es[i].1)
    case List(xs) => forall i :: 0 <= i < |xs| ==> TextFree(xs[i])
    case Text(_) => false
    case _ => true
  }

  /** The Python 2 branch: the recursive walk. The result has no text left,
      keeps every dict and list with its size, and turns a text scalar into
      the bytes of its UTF-8 encoding. */
  function Encode(v: Value): (r: Value)
    ensures TextFree(r)
    ensures v.Dict? ==> r.Dict? && |r.entries| == |v.entries|
    ensures v.List? ==> r.List? && |r.elements| == |v.elements|
    ensures v.Text? ==> r.Bytes? && Utf8.Decode(r.octets) == Some(v.chars)
    ensures !(v.Dict? || v.List? || v.Text?) ==> r == v
  {
    match v
    case Dict(es) => Dict(seq(|es|, i requires 0 <= i < |es| => (Encode(es[i].0), Encode(es[i].1))))
    case List(xs) => List(seq(|xs|, i requires 0 <= i < |xs| => Encode(xs[i])))
    case Text(t) =>
      Utf8.DecodeEncode(t);
      Bytes(Utf8.Encode(t))
    case _ => v
  }

  /** `ensure_unicode_for_csv(input)`, with `six.PY2` passed as `py2`: the
      identity outside Python 2, the recursive walk under it. */
  function EnsureUnicodeForCsv(py2: bool, v: Value): (r: Value)
    ensures !py2 ==> r == v
    ensures py2 ==> TextFree(r)
    ensures py2 ==> EncodedForm(v, r)
  {
    if !py2 then
      v
    else
      EncodedFormIsEncode(v, Encode(v));
      Encode(v)
  }

  /** The declarative reading of the Python 2 branch: `w` has the dicts and
      lists of `v` at the same places and sizes, each text scalar of `v`
      stands in `w` as octets that decode (as UTF-8) back to that text, and
      every other node of `v` is kept as it is. */
  ghost predicate EncodedForm(v: Value, w: Value) {
    match v
    case Dict(es) =>
      && w.Dict? && |w.entries| == |es|
      && forall i :: 0 <= i < |es| ==>
           EncodedForm(es[i].0, w.entries[i].0) && EncodedForm(es[i].1, w.entries[i].1)
    case List(xs) =>
      && w.List? && |w.elements| == |xs|
      && forall i :: 0 <= i < |xs| ==> EncodedForm(xs[i], w.elements[i])
    case Text(t) => w.Bytes? && Utf8.Decode(w.octets) == Some(t)
    case _ => w == v
  }

  /** The walk computes exactly the encoded form: its result is one, and it
      is the only one. */
  lemma {:induction false} EncodedFormIsEncode(v: Value, w: Value)
    ensures EncodedForm(v, w) <==> w == Encode(v)
  {
    match v
    case Dict(es) =>
      var e := Encode(v).entries;
      forall i | 0 <= i < |es|
        ensures EncodedForm(es[i].0, e[i].0) && EncodedForm(es[i].1, e[i].1)
      {
        EncodedFormIsEncode(es[i].0, e[i].0);
        EncodedFormIsEncode(es[i].1, e[i].1);
      }
      if EncodedForm(v, w) {
        forall i | 0 <= i < |es|
          ensures w.entries[i] == e[i]
        {
          EncodedFormIsEncode(es[i].0, w.entries[i].0);
          EncodedFormIsEncode(es[i].1, w.entries[i].1);
        }
        assert w.entries == e;
      }
    case List(xs) =>
      var e := Encode(v).elements;
      forall i | 0 <= i < |xs|
        ensures EncodedForm(xs[i], e[i])
      {
        EncodedFormIsEncode(xs[i], e[i]);
      }
      if EncodedForm(v, w) {
        forall i | 0 <= i < |xs|
          ensures w.elements[i] == e[i]
        {
          EncodedFormIsEncode(xs[i], w.elements[i]);
        }
        assert w.elements == e;
      }
    case Text(t) =>
    case _ =>
  }

  /** A value with no reachable text is left as it is by the walk. */
  lemma {:induction false} EncodeTextFree(v: Value)
    requires TextFree(v)
    ensures Encode(v) == v
  {
    match v
    case Dict(es) =>
      forall i | 0 <= i < |es|
        ensures Encode(v).entries[i] == es[i]
      {
        EncodeTextFree(es[i].0);
        EncodeTextFree(es[i].1);
      }
      assert Encode(v).entries == es;
    case List(xs) =>
      forall i | 0 <= i < |xs|
        ensures Encode(v).elements[i] == xs[i]
      {
        EncodeTextFree(xs[i]);
      }
      assert Encode(v).elements == xs;
    case _ =>
  }

  /** Normalising twice is normalising once. */
  lemma EnsureUnicodeForCsvIdempotent(py2: bool, v: Value)
    ensures EnsureUnicodeForCsv(py2, EnsureUnicodeForCsv(py2, v)) == EnsureUnicodeForCsv(py2, v)
  {
    if py2 {
      EncodeTextFree(Encode(v));
    }
  }

  // Worked examples (a = 0x61, b = 0x62, c = 0x63, d = 0x64, f = 0x66,
  // x = 0x78, y = 0x79, é = U+00E9).

  /** `["x", 1, "y"]` becomes `[b"x", 1, b"y"]`, and `42` stays `42`. */
  lemma ListExample()
    ensures EnsureUnicodeForCsv(true, List([Text([0x78]), Int(1), Text([0x79])]))
            == List([Bytes([0x78]), Int(1), Bytes([0x79])])
    ensures EnsureUnicodeForCsv(true, Int(42)) == Int(42)
  {
  }

  /** "café" becomes its five UTF-8 octets: é is the two octets C3 A9. */
  lemma CafeExample()
    ensures EnsureUnicodeForCsv(true, Text([0x63, 0x61, 0x66, 0xE9]))
            == Bytes([0x63, 0x61, 0x66, 0xC3, 0xA9])
  {
  }

  /** `{"a": ["b", {"c": "d"}]}`: every text at every depth, keys included,
      becomes bytes. */
  lemma NestedExample()
    ensures EnsureUnicodeForCsv(true, Dict([(Text([0x61]), List([Text([0x62]), Dict([(Text([0x63]), Text([0x64]))])]))]))
            == Dict([(Bytes([0x61]), List([Bytes([0x62]), Dict([(Bytes([0x63]), Bytes([0x64]))])]))])
  {
    var inner := Dict([(Text([0x63]), Text([0x64]))]);
    assert Encode(inner) == Dict([(Bytes([0x63]), Bytes([0x64]))]);
    var list := List([Text([0x62]), inner]);
    assert Encode(list).elements == [Bytes([0x62]), Dict([(Bytes([0x63]), Bytes([0x64]))])];
  }

  /** A tuple is not descended into: text inside it stays text. */
  lemma TupleExample()
    ensures EnsureUnicodeForCsv(true, Tuple([Text([0x61])])) == Tuple([Text([0x61])])
  {
  }
}
