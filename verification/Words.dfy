/** 32-bit words and the bytes they are made of, most significant first. */
module Words {
  type Byte = bv8
  type Word = bv32

  /** GET_UINT32: big-endian. */
  function Get(a: Byte, b: Byte, c: Byte, d: Byte): Word {
    ((a as Word) << 24) | ((b as Word) << 16) | ((c as Word) << 8) | (d as Word)
  }

  /** PUT_UINT32. */
  function Put(n: Word): (r: seq<Byte>)
    ensures |r| == 4
  {
    [((n >> 24) & 0xFF) as Byte, ((n >> 16) & 0xFF) as Byte, ((n >> 8) & 0xFF) as Byte, (n & 0xFF) as Byte]
  }

  /** The first byte is the most significant one, and the others follow in the same way. */
  lemma MostSignificantFirst(a: Byte, b: Byte, c: Byte, d: Byte)
    ensures Get(a, b, c, d) >> 24 == a as Word && Get(a, b, c, d) << 8 == Get(b, c, d, 0)
  {
  }

  lemma GetPut(n: Word)
    ensures var r := Put(n); Get(r[0], r[1], r[2], r[3]) == n
  {
  }
}
