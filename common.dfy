/** Machine types and wrappers shared by the barcode-scanner model. */
module Common {

  /** Go's `byte` / `uint8`. */
  type uint8 = x: int | 0 <= x < 0x100

  /** Go's `uint16`, the width of `usb.ID`. */
  type uint16 = x: int | 0 <= x < 0x1_0000

  datatype Option<+T> = None | Some(value: T)

  /** A Go `(value, error)` pair where the value is only meaningful without an error. */
  datatype Result<+T, +E> = Ok(value: T) | Err(error: E)

  /** `strings.Join(parts, "")`: the parts concatenated in order. */
  function Join(parts: seq<string>): (s: string)
    ensures |s| == LengthSum(parts)
  {
    if parts == [] then "" else parts[0] + Join(parts[1..])
  }

  /** Total length of the parts. */
  function LengthSum(parts: seq<string>): nat
  {
    if parts == [] then 0 else |parts[0]| + LengthSum(parts[1..])
  }

  /** Joining a concatenation is concatenating the joins. */
  lemma {:induction false} JoinAppend(a: seq<string>, b: seq<string>)
    ensures Join(a + b) == Join(a) + Join(b)
  {
    if a == [] {
      assert a + b == b;
    } else {
      assert (a + b)[1..] == a[1..] + b;
      JoinAppend(a[1..], b);
    }
  }

  /** Concatenation is associative (stated once, so the solver need not search for it). */
  lemma SeqAssoc<T>(a: seq<T>, b: seq<T>, c: seq<T>)
    ensures (a + b) + c == a + (b + c)
  {
  }
}
