/** The CRC kept over the bytes a block stands for. The 256-entry table is a parameter. */
module BlockCrc {
  import opened Bytes

  lemma IndexInTable(crc: bv32, c: bv32)
    requires c < 256
    ensures ((crc >> 24) ^ c) < 256
  {
  }

  function UpdateCrc(table: seq<bv32>, crc: bv32, c: int): bv32
    requires |table| == 256 && 0 <= c < 256
  {
    IndexInTable(crc, (c as bv8) as bv32);
    (crc << 8) ^ table[((crc >> 24) ^ ((c as bv8) as bv32)) as int]
  }

  /** The CRC after a whole byte string. */
  function CrcBytes(table: seq<bv32>, crc: bv32, s: seq<int>): bv32
    requires |table| == 256 && IsBytes(s)
  {
    if s == [] then crc else UpdateCrc(table, CrcBytes(table, crc, s[..|s|-1]), s[|s|-1])
  }

  lemma CrcAppend(table: seq<bv32>, crc: bv32, s: seq<int>, c: int)
    requires |table| == 256 && 0 <= c < 256 && IsBytes(s)
    ensures CrcBytes(table, crc, s + [c]) == UpdateCrc(table, CrcBytes(table, crc, s), c)
  {
    assert (s + [c])[..|s|] == s;
  }

  lemma {:induction false} CrcConcat(table: seq<bv32>, crc: bv32, s: seq<int>, t: seq<int>)
    requires |table| == 256
    requires IsBytes(s)
    requires IsBytes(t)
    ensures CrcBytes(table, crc, s + t) == CrcBytes(table, CrcBytes(table, crc, s), t)
    decreases |t|
  {
    if t == [] {
      assert s + t == s;
    } else {
      CrcConcat(table, crc, s, t[..|t|-1]);
      assert (s + t)[..|s + t|-1] == s + t[..|t|-1];
    }
  }
}
