/** Query strings `k1=v1&k2=v2&...`: how the proxy URL builders lay out
    their parameters, and how a reader splits them apart again (on `&`,
    then on the first `=` of each piece). */
module Query {
  import opened Wrappers

  type Param = (string, string)

  function Join(ps: seq<Param>): string {
    if ps == [] then ""
    else if |ps| == 1 then ps[0].0 + "=" + ps[0].1
    else ps[0].0 + "=" + ps[0].1 + "&" + Join(ps[1..])
  }

  function SplitOn(s: string, sep: char): (parts: seq<string>)
    ensures |parts| >= 1
  {
    if s == [] then [[]]
    else
      var rest := SplitOn(s[1..], sep);
      if s[0] == sep then [[]] + rest else [[s[0]] + rest[0]] + rest[1..]
  }

  /** Splits one piece at its first `=`; a piece without one has an empty value. */
  function SplitPair(piece: string): Param {
    if piece == [] then ("", "")
    else if piece[0] == '=' then ("", piece[1..])
    else
      var (k, v) := SplitPair(piece[1..]);
      ([piece[0]] + k, v)
  }

  function SplitPairs(pieces: seq<string>): (ps: seq<Param>)
    ensures |ps| == |pieces|
  {
    if pieces == [] then [] else [SplitPair(pieces[0])] + SplitPairs(pieces[1..])
  }

  function Parse(q: string): seq<Param> {
    SplitPairs(SplitOn(q, '&'))
  }

  /** The value of the first parameter named `key`. */
  function Lookup(ps: seq<Param>, key: string): Option<string> {
    if ps == [] then None
    else if ps[0].0 == key then Some(ps[0].1)
    else Lookup(ps[1..], key)
  }

  /** Keys free of `&` and `=`, values free of `&`: the layout is unambiguous. */
  predicate Separable(ps: seq<Param>) {
    forall i | 0 <= i < |ps| :: '&' !in ps[i].0 && '=' !in ps[i].0 && '&' !in ps[i].1
  }

  lemma {:induction false} SplitOnNone(x: string, sep: char)
    requires sep !in x
    ensures SplitOn(x, sep) == [x]
  {
    if x != [] {
      SplitOnNone(x[1..], sep);
      assert [x[0]] + x[1..] == x;
    }
  }

  lemma {:induction false} SplitOnFirst(x: string, sep: char, y: string)
    requires sep !in x
    ensures SplitOn(x + [sep] + y, sep) == [x] + SplitOn(y, sep)
  {
    if x == [] {
      assert x + [sep] + y == [sep] + y;
      assert ([sep] + y)[1..] == y;
    } else {
      assert (x + [sep] + y)[1..] == x[1..] + [sep] + y;
      SplitOnFirst(x[1..], sep, y);
      assert [x[0]] + x[1..] == x;
    }
  }

  lemma {:induction false} SplitPairOf(k: string, v: string)
    requires '=' !in k
    ensures SplitPair(k + "=" + v) == (k, v)
  {
    if k == [] {
      assert k + "=" + v == ['='] + v;
      assert (['='] + v)[1..] == v;
    } else {
      assert (k + "=" + v)[1..] == k[1..] + "=" + v;
      SplitPairOf(k[1..], v);
      assert [k[0]] + k[1..] == k;
    }
  }

  /** Splitting a joined list of separable parameters gives it back. */
  lemma {:induction false} ParseJoin(ps: seq<Param>)
    requires ps != [] && Separable(ps)
    ensures Parse(Join(ps)) == ps
  {
    var piece := ps[0].0 + "=" + ps[0].1;
    assert '&' !in piece by {
      forall i | 0 <= i < |piece| ensures piece[i] != '&' {
        if i < |ps[0].0| { assert piece[i] == ps[0].0[i]; }
        else if i > |ps[0].0| { assert piece[i] == ps[0].1[i - |ps[0].0| - 1]; }
      }
    }
    SplitPairOf(ps[0].0, ps[0].1);
    if |ps| == 1 {
      SplitOnNone(piece, '&');
    } else {
      assert Join(ps) == piece + ['&'] + Join(ps[1..]);
      SplitOnFirst(piece, '&', Join(ps[1..]));
      assert Separable(ps[1..]) by {
        forall i | 0 <= i < |ps[1..]| ensures '&' !in ps[1..][i].0 && '=' !in ps[1..][i].0 && '&' !in ps[1..][i].1 {
          assert ps[1..][i] == ps[i + 1];
        }
      }
      ParseJoin(ps[1..]);
      assert [ps[0]] + ps[1..] == ps;
    }
  }
}
