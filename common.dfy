/** Bytes, big-endian words and the fixed sizes shared by the AAC front end. */
module Common {

  /** An unsigned 8-bit value, as read from the input stream. */
  newtype byte = b: int | 0 <= b < 0x100

  datatype Option<T> = None | Some(value: T)

  /** Size of the local copy made when a frame wraps round the stream buffer (faad.c:28). */
  const WRAPBUF_LEN: nat := 2048

  /** Free output space, in bytes, the plugin asks for before each decode call (faad.c:507). */
  const MIN_SPACE: nat := 20480

  /** One output frame: two 32-bit samples. */
  const BYTES_PER_FRAME: nat := 8

  function Min(a: int, b: int): (m: int)
    ensures m <= a && m <= b && (m == a || m == b)
  {
    if a < b then a else b
  }

  /** Two numbers written with the same four base-256 digits have the same digits. */
  lemma SameDigits(a: nat, b: nat, c: nat, d: nat, w: nat, x: nat, y: nat, z: nat)
    requires a < 0x100 && b < 0x100 && c < 0x100 && d < 0x100
    requires w < 0x100 && x < 0x100 && y < 0x100 && z < 0x100
    requires ((a * 0x100 + b) * 0x100 + c) * 0x100 + d == ((w * 0x100 + x) * 0x100 + y) * 0x100 + z
    ensures a == w && b == x && c == y && d == z
  {
    LastDigit((a * 0x100 + b) * 0x100 + c, d, (w * 0x100 + x) * 0x100 + y, z);
    LastDigit(a * 0x100 + b, c, w * 0x100 + x, y);
    LastDigit(a, b, w, x);
  }

  lemma LastDigit(q1: nat, d1: nat, q2: nat, d2: nat)
    requires d1 < 0x100 && d2 < 0x100 && q1 * 0x100 + d1 == q2 * 0x100 + d2
    ensures q1 == q2 && d1 == d2
  {
  }

  /** unpackN: the 32-bit big-endian word stored at s[i..i+4]. */
  function Be32(s: seq<byte>, i: nat): (v: nat)
    requires i + 4 <= |s|
    ensures v < 0x1_0000_0000
  {
    ((s[i] as nat * 0x100 + s[i + 1] as nat) * 0x100 + s[i + 2] as nat) * 0x100 + s[i + 3] as nat
  }
}
