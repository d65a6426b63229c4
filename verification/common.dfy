/** Shared vocabulary of the model: optional values, bytes, URLs and two
    small sequence helpers. */
module Common {

  /** Rust's `Option<T>`; `None` also stands for an `unwrap`/`expect` that
      would abort the program. */
  datatype Option<+T> = None | Some(value: T)

  /** One octet of a downloaded body (Rust's `u8`). */
  newtype byte = x: int | 0 <= x < 256

  /** A `Vec<u8>` body. */
  type Bytes = seq<byte>

  /** A request address; an ordinary Rust `String`. */
  type Url = string

  function Min(a: int, b: int): (m: int)
    ensures m <= a && m <= b
    ensures m == a || m == b
  {
    if a <= b then a else b
  }

  /** `Vec::reverse`: element k moves to position |s| - 1 - k. */
  function Reverse<T>(s: seq<T>): (r: seq<T>)
    ensures |r| == |s|
    ensures forall k :: 0 <= k < |s| ==> r[k] == s[|s| - 1 - k]
  {
    if |s| == 0 then [] else Reverse(s[1..]) + [s[0]]
  }

  /** Reversing twice gives the original order back. */
  lemma ReverseReverse<T>(s: seq<T>)
    ensures Reverse(Reverse(s)) == s
  {
    var r := Reverse(Reverse(s));
    assert forall k :: 0 <= k < |s| ==> r[k] == s[k];
  }
}
