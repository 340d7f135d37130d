/** Small shared vocabulary: optional values, bytes, and numbers in bytes. */
module Common {

  datatype Option<+T> = None | Some(value: T)

  type Byte = b: int | 0 <= b < 256

  type Bytes = seq<Byte>

  /** In-order join of the parts of a frame. */
  function Join(parts: seq<Bytes>): (r: Bytes)
  {
    if parts == [] then [] else parts[0] + Join(parts[1..])
  }

  lemma {:induction false} JoinAppend(parts: seq<Bytes>, last: Bytes)
    ensures Join(parts + [last]) == Join(parts) + last
  {
    if parts == [] {
      assert parts + [last] == [last];
    } else {
      JoinAppend(parts[1..], last);
      assert (parts + [last])[1..] == parts[1..] + [last];
    }
  }

  /** The number recorded in these bytes, least significant first. */
  function LittleEndian(b: Bytes): nat {
    if b == [] then 0
    else
      var first: int := b[0];
      first + 256 * LittleEndian(b[1..])
  }
}
