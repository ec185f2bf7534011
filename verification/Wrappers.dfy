/** Optional values, results with an error, bytes, and the reversal of a sequence, shared by all modules.
    A program function that may fail returns a result here; one that may find nothing returns an option.
    Texts, names and archives are sequences of bytes. */
module Wrappers {
  datatype Option<+T> = None | Some(value: T)

  datatype Result<+T, +E> = Success(value: T) | Failure(error: E)

  type Byte = b: int | 0 <= b < 256

  /** A document, a name or an archive: offsets into it are byte offsets. */
  type Bytes = seq<Byte>

  const NEWLINE: Byte := 10

  function Min(a: nat, b: nat): nat { if a < b then a else b }

  function Flatten<T>(parts: seq<seq<T>>): seq<T> {
    if parts == [] then [] else parts[0] + Flatten(parts[1..])
  }

  function Reverse<T>(s: seq<T>): (r: seq<T>)
    ensures |r| == |s|
  {
    if s == [] then [] else Reverse(s[1..]) + [s[0]]
  }

  lemma {:induction false} ReverseAt<T>(s: seq<T>, k: nat)
    requires k < |s|
    ensures Reverse(s)[k] == s[|s| - 1 - k]
  {
    if k == |s| - 1 {
    } else {
      ReverseAt(s[1..], k);
    }
  }

  lemma {:induction false} ReverseConcat<T>(a: seq<T>, b: seq<T>)
    ensures Reverse(a + b) == Reverse(b) + Reverse(a)
  {
    if a == [] {
      assert a + b == b;
    } else {
      assert (a + b)[1..] == a[1..] + b;
      ReverseConcat(a[1..], b);
    }
  }

  lemma {:induction false} ReverseReverse<T>(s: seq<T>)
    ensures Reverse(Reverse(s)) == s
  {
    if s == [] {
    } else {
      ReverseReverse(s[1..]);
      ReverseConcat(Reverse(s[1..]), [s[0]]);
      assert s == [s[0]] + s[1..];
    }
  }
}
