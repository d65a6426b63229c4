/** The `&key=value` tail of a request URL, with a decoder used to state
    what a request URL built by string pushes actually asks the server for. */
module Query {
  import opened Common
  import opened Strings

  datatype Param = Param(key: string, value: string)

  /** `&key=value` for each parameter, in order. */
  function EncodeParams(ps: seq<Param>): string
  {
    if |ps| == 0 then "" else "&" + ps[0].key + "=" + ps[0].value + EncodeParams(ps[1..])
  }

  /** `key=value` with exactly one `=`. */
  function DecodeParam(piece: string): Option<Param>
  {
    var kv := Split(piece, '=');
    if |kv| == 2 then Some(Param(kv[0], kv[1])) else None
  }

  function DecodePieces(pieces: seq<string>): Option<seq<Param>>
  {
    if |pieces| == 0 then Some([])
    else match DecodeParam(pieces[0])
      case None => None
      case Some(p) =>
        match DecodePieces(pieces[1..])
        case None => None
        case Some(rest) => Some([p] + rest)
  }

  /** Reads a tail `&k1=v1&k2=v2...` back into its parameters. */
  function DecodeParams(s: string): Option<seq<Param>>
  {
    if |s| == 0 then Some([])
    else if s[0] != '&' then None
    else DecodePieces(Split(s[1..], '&'))
  }

  /** Pushing more parameters appends their text. */
  lemma {:induction false} EncodeParamsAppend(a: seq<Param>, b: seq<Param>)
    ensures EncodeParams(a + b) == EncodeParams(a) + EncodeParams(b)
    decreases |a|
  {
    if |a| == 0 {
      assert a + b == b;
    } else {
      assert (a + b)[1..] == a[1..] + b;
      EncodeParamsAppend(a[1..], b);
    }
  }

  /** Text that cannot be confused with the query's punctuation. */
  predicate Plain(s: string)
  {
    '&' !in s && '=' !in s
  }

  predicate PlainParams(ps: seq<Param>)
  {
    forall i :: 0 <= i < |ps| ==> Plain(ps[i].key) && Plain(ps[i].value)
  }

  /** Decimal integers are plain. */
  lemma IntToStringPlain(n: int)
    ensures Plain(IntToString(n))
  {
    var s := IntToString(n);
    assert forall i :: 0 <= i < |s| ==> s[i] != '&' && s[i] != '=';
  }

  function Pieces(ps: seq<Param>): (pieces: seq<string>)
    ensures |pieces| == |ps|
  {
    seq(|ps|, i requires 0 <= i < |ps| => ps[i].key + "=" + ps[i].value)
  }

  lemma {:induction false} EncodeAsJoin(ps: seq<Param>)
    requires |ps| >= 1
    ensures EncodeParams(ps) == "&" + Join(Pieces(ps), '&')
    decreases |ps|
  {
    var head := ps[0].key + "=" + ps[0].value;
    if |ps| == 1 {
      assert EncodeParams(ps) == "&" + head + "";
    } else {
      EncodeAsJoin(ps[1..]);
      assert Pieces(ps)[1..] == Pieces(ps[1..]);
      assert EncodeParams(ps) == "&" + head + ("&" + Join(Pieces(ps[1..]), '&'));
    }
  }

  lemma DecodeOneParam(p: Param)
    requires Plain(p.key) && Plain(p.value)
    ensures DecodeParam(p.key + "=" + p.value) == Some(p)
  {
    var kv := [p.key, p.value];
    assert Join(kv, '=') == p.key + "=" + p.value;
    SplitJoin(kv, '=');
  }

  lemma {:induction false} DecodePiecesOfParams(ps: seq<Param>)
    requires PlainParams(ps)
    ensures DecodePieces(Pieces(ps)) == Some(ps)
    decreases |ps|
  {
    if |ps| > 0 {
      DecodeOneParam(ps[0]);
      assert Pieces(ps)[1..] == Pieces(ps[1..]);
      DecodePiecesOfParams(ps[1..]);
      assert [ps[0]] + ps[1..] == ps;
    }
  }

  /** Parameters whose keys and values avoid `&` and `=` survive a round
      trip through the query text. */
  lemma DecodeEncode(ps: seq<Param>)
    requires PlainParams(ps)
    ensures DecodeParams(EncodeParams(ps)) == Some(ps)
  {
    if |ps| > 0 {
      EncodeAsJoin(ps);
      var pieces := Pieces(ps);
      assert forall i :: 0 <= i < |pieces| ==> '&' !in pieces[i];
      SplitJoin(pieces, '&');
      assert EncodeParams(ps)[1..] == Join(pieces, '&');
      DecodePiecesOfParams(ps);
    }
  }

  /** The value of the first parameter called `key`. */
  function Lookup(ps: seq<Param>, key: string): Option<string>
  {
    if |ps| == 0 then None
    else if ps[0].key == key then Some(ps[0].value)
    else Lookup(ps[1..], key)
  }

  /** The first parameter called `key`, read as an integer. */
  function LookupInt(ps: seq<Param>, key: string): Option<int>
  {
    match Lookup(ps, key)
    case None => None
    case Some(v) => ParseInt(v)
  }
}
