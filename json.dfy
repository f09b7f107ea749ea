/** JSON documents as json.dump writes them and json.load reads them back. */
module Json {
  import opened Wrappers

  datatype Value =
    | Null
    | Bool(b: bool)
    | Num(n: real)
    | Str(s: string)
    | Arr(items: seq<Value>)
    | Obj(fields: map<string, Value>)

  /** Encodes every element of a list with `enc`, keeping the order. */
  function EncodeAll<T>(xs: seq<T>, enc: T -> Value): (vs: seq<Value>)
    ensures |vs| == |xs|
    ensures forall i :: 0 <= i < |xs| ==> vs[i] == enc(xs[i])
  {
    if xs == [] then [] else [enc(xs[0])] + EncodeAll(xs[1..], enc)
  }

  /** Decodes every element with `dec`; fails as soon as one element does not decode. */
  function DecodeAll<T>(vs: seq<Value>, dec: Value -> Option<T>): (r: Option<seq<T>>)
    ensures r.Some? ==> |r.value| == |vs|
    ensures r.Some? <==> forall i :: 0 <= i < |vs| ==> dec(vs[i]).Some?
  {
    if vs == [] then Some([])
    else
      match (dec(vs[0]), DecodeAll(vs[1..], dec))
      case (Some(x), Some(xs)) => Some([x] + xs)
      case _ => None
  }

  /** A JSON array of the encoded elements. */
  function EncodeList<T>(xs: seq<T>, enc: T -> Value): Value
  {
    Arr(EncodeAll(xs, enc))
  }

  /** Reads back a JSON array whose every element decodes; anything else fails. */
  function DecodeList<T>(v: Value, dec: Value -> Option<T>): Option<seq<T>>
  {
    if v.Arr? then DecodeAll(v.items, dec) else None
  }

  /** Decoding an encoded list gives the list back, when it does so element by element. */
  lemma {:induction false} DecodeEncodeAll<T(!new)>(xs: seq<T>, enc: T -> Value, dec: Value -> Option<T>)
    requires forall x :: dec(enc(x)) == Some(x)
    ensures DecodeAll(EncodeAll(xs, enc), dec) == Some(xs)
  {
    if xs != [] {
      DecodeEncodeAll(xs[1..], enc, dec);
      assert EncodeAll(xs, enc)[1..] == EncodeAll(xs[1..], enc);
      assert [xs[0]] + xs[1..] == xs;
    }
  }

  /** A decoder that accepts only what the encoder writes makes decoding injective on lists too. */
  lemma {:induction false} EncodeDecodeAll<T(!new)>(vs: seq<Value>, enc: T -> Value, dec: Value -> Option<T>)
    requires forall v, x :: dec(v) == Some(x) ==> enc(x) == v
    requires DecodeAll(vs, dec).Some?
    ensures EncodeAll(DecodeAll(vs, dec).value, enc) == vs
  {
    if vs != [] {
      EncodeDecodeAll(vs[1..], enc, dec);
      assert [vs[0]] + vs[1..] == vs;
    }
  }

  lemma DecodeEncodeList<T(!new)>(xs: seq<T>, enc: T -> Value, dec: Value -> Option<T>)
    requires forall x :: dec(enc(x)) == Some(x)
    ensures DecodeList(EncodeList(xs, enc), dec) == Some(xs)
  {
    DecodeEncodeAll(xs, enc, dec);
  }

  lemma EncodeDecodeList<T(!new)>(v: Value, enc: T -> Value, dec: Value -> Option<T>)
    requires forall w, x :: dec(w) == Some(x) ==> enc(x) == w
    requires DecodeList(v, dec).Some?
    ensures EncodeList(DecodeList(v, dec).value, enc) == v
  {
    EncodeDecodeAll(v.items, enc, dec);
  }
}
