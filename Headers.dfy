/** Request-header records (`Record<string, string>`). A JavaScript object
    keeps its keys in insertion order and `JSON.stringify` writes them in
    that order, so a record is an ordered list of key/value entries;
    `ToMap` gives its dictionary view. */
module Headers {

  type Headers = seq<(string, string)>

  /** No key occurs twice, as in any JavaScript object. */
  predicate DistinctKeys(h: Headers) {
    forall i, j | 0 <= i < j < |h| :: h[i].0 != h[j].0
  }

  function Keys(h: Headers): (ks: seq<string>)
    ensures |ks| == |h| && forall i | 0 <= i < |h| :: ks[i] == h[i].0
  {
    if h == [] then [] else [h[0].0] + Keys(h[1..])
  }

  /** The dictionary view; the first entry of a key is the one read. */
  function ToMap(h: Headers): map<string, string> {
    if h == [] then map[] else ToMap(h[1..])[h[0].0 := h[0].1]
  }

  /** The entries of `a`, each taking the value `b` gives its key if any. */
  function Overlay(a: Headers, b: Headers): (r: Headers)
    ensures Keys(r) == Keys(a)
  {
    if a == [] then []
    else
      var (k, v) := a[0];
      [(k, if k in ToMap(b) then ToMap(b)[k] else v)] + Overlay(a[1..], b)
  }

  /** The entries of `b` whose key `a` does not have, in `b`'s order. */
  function Fresh(b: Headers, a: Headers): Headers {
    if b == [] then []
    else if b[0].0 in ToMap(a) then Fresh(b[1..], a)
    else [b[0]] + Fresh(b[1..], a)
  }

  /** The object spread `{ ...a, ...b }`. */
  function Spread(a: Headers, b: Headers): Headers {
    Overlay(a, b) + Fresh(b, a)
  }

  lemma {:induction false} KeysInMap(h: Headers, k: string)
    ensures k in ToMap(h) <==> k in Keys(h)
  {
    if h != [] {
      KeysInMap(h[1..], k);
      assert Keys(h) == [h[0].0] + Keys(h[1..]);
    }
  }

  lemma {:induction false} ToMapAppend(x: Headers, y: Headers)
    ensures ToMap(x + y) == ToMap(y) + ToMap(x)
  {
    if x != [] {
      assert (x + y)[1..] == x[1..] + y;
      ToMapAppend(x[1..], y);
    } else {
      assert x + y == y;
    }
  }

  lemma {:induction false} OverlayToMap(a: Headers, b: Headers)
    ensures ToMap(Overlay(a, b)).Keys == ToMap(a).Keys
    ensures forall k | k in ToMap(a) ::
      ToMap(Overlay(a, b))[k] == if k in ToMap(b) then ToMap(b)[k] else ToMap(a)[k]
  {
    if a != [] {
      OverlayToMap(a[1..], b);
    }
  }

  lemma {:induction false} FreshToMap(b: Headers, a: Headers)
    ensures ToMap(Fresh(b, a)).Keys == ToMap(b).Keys - ToMap(a).Keys
    ensures forall k | k in ToMap(Fresh(b, a)) :: ToMap(Fresh(b, a))[k] == ToMap(b)[k]
  {
    if b != [] {
      FreshToMap(b[1..], a);
    }
  }

  /** Spreading overlays the dictionaries: keys from either side are kept
      and on a shared key the value of `b` wins. */
  lemma SpreadToMap(a: Headers, b: Headers)
    ensures ToMap(Spread(a, b)) == ToMap(a) + ToMap(b)
  {
    ToMapAppend(Overlay(a, b), Fresh(b, a));
    OverlayToMap(a, b);
    FreshToMap(b, a);
  }

  /** The keys of `a` keep their places; the new keys of `b` follow, in `b`'s order. */
  lemma {:induction false} SpreadKeys(a: Headers, b: Headers)
    ensures Keys(Spread(a, b)) == Keys(a) + Keys(Fresh(b, a))
    ensures forall k :: k in Keys(Fresh(b, a)) <==> k in Keys(b) && k !in Keys(a)
  {
    KeysAppend(Overlay(a, b), Fresh(b, a));
    FreshKeys(b, a);
  }

  lemma KeysAppend(x: Headers, y: Headers)
    ensures Keys(x + y) == Keys(x) + Keys(y)
  {
    var l, r := Keys(x + y), Keys(x) + Keys(y);
    assert |l| == |r|;
    forall i | 0 <= i < |l| ensures l[i] == r[i] {
      if i < |x| { assert r[i] == Keys(x)[i]; } else { assert r[i] == Keys(y)[i - |x|]; }
    }
  }

  lemma {:induction false} FreshKeys(b: Headers, a: Headers)
    ensures forall k :: k in Keys(Fresh(b, a)) <==> k in Keys(b) && k !in Keys(a)
  {
    forall k ensures k in ToMap(a) <==> k in Keys(a) {
      KeysInMap(a, k);
    }
    if b != [] {
      FreshKeys(b[1..], a);
      assert Keys(b) == [b[0].0] + Keys(b[1..]);
      if b[0].0 !in ToMap(a) {
        assert Keys(Fresh(b, a)) == [b[0].0] + Keys(Fresh(b[1..], a));
      }
    }
  }

  lemma OverlayDistinct(a: Headers, b: Headers)
    requires DistinctKeys(a)
    ensures DistinctKeys(Overlay(a, b))
  {
    var x := Overlay(a, b);
    forall i, j | 0 <= i < j < |x| ensures x[i].0 != x[j].0 {
      assert Keys(x)[i] == Keys(a)[i] && Keys(x)[j] == Keys(a)[j];
    }
  }

  lemma DistinctConcat(x: Headers, y: Headers)
    requires DistinctKeys(x) && DistinctKeys(y)
    requires forall i | 0 <= i < |x| :: x[i].0 !in Keys(y)
    ensures DistinctKeys(x + y)
  {
    var r := x + y;
    forall i, j | 0 <= i < j < |r| ensures r[i].0 != r[j].0 {
      if j < |x| {
        assert r[i] == x[i] && r[j] == x[j];
      } else if i < |x| {
        assert r[i] == x[i] && r[j] == y[j - |x|];
        assert Keys(y)[j - |x|] == r[j].0;
      } else {
        assert r[i] == y[i - |x|] && r[j] == y[j - |x|];
      }
    }
  }

  /** Spreading two objects gives an object: no key twice. */
  lemma SpreadDistinct(a: Headers, b: Headers)
    requires DistinctKeys(a) && DistinctKeys(b)
    ensures DistinctKeys(Spread(a, b))
  {
    var x, y := Overlay(a, b), Fresh(b, a);
    OverlayDistinct(a, b);
    FreshDistinct(b, a);
    FreshKeys(b, a);
    forall i | 0 <= i < |x| ensures x[i].0 !in Keys(y) {
      assert Keys(x)[i] == Keys(a)[i];
    }
    DistinctConcat(x, y);
  }

  lemma {:induction false} FreshDistinct(b: Headers, a: Headers)
    requires DistinctKeys(b)
    ensures DistinctKeys(Fresh(b, a))
  {
    if b != [] {
      FreshDistinct(b[1..], a);
      FreshKeys(b[1..], a);
      if b[0].0 !in ToMap(a) {
        var r := Fresh(b, a);
        assert b[0].0 !in Keys(b[1..]);
        forall j | 0 < j < |r| ensures r[0].0 != r[j].0 {
          assert Keys(Fresh(b[1..], a))[j - 1] == r[j].0;
        }
      }
    }
  }
}
