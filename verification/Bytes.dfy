/** Little-endian 32-bit integers. */
module Bytes {
  import opened Base

  function FromLittleEndian(b0: int, b1: int, b2: int, b3: int): int {
    b0 + 256 * b1 + 65536 * b2 + 16777216 * b3
  }

  function ToLittleEndian(n: u32): (bytes: seq<byte>)
    ensures |bytes| == 4
  {
    [n % 256, n / 256 % 256, n / 65536 % 256, n / 16777216]
  }

  lemma LittleEndianRoundTrip(n: u32)
    ensures var b := ToLittleEndian(n); FromLittleEndian(b[0], b[1], b[2], b[3]) == n
  {
    var a, b := n / 256, n / 65536;
    assert n == n % 256 + 256 * a;
    assert b == a / 256 && a == a % 256 + 256 * b;
    assert n / 16777216 == b / 256 && b == b % 256 + 256 * (b / 256);
  }

  lemma LowByte(a: byte, high: int, a': byte, high': int)
    requires a + 256 * high == a' + 256 * high'
    ensures a == a' && high == high'
  {
  }

  lemma LittleEndianInjective(x: seq<byte>, y: seq<byte>)
    requires |x| == |y| == 4
    requires FromLittleEndian(x[0], x[1], x[2], x[3]) == FromLittleEndian(y[0], y[1], y[2], y[3])
    ensures x == y
  {
    var x1: int, x2: int, x3: int := x[1], x[2], x[3];
    var y1: int, y2: int, y3: int := y[1], y[2], y[3];
    LowByte(x[0], x1 + 256 * (x2 + 256 * x3), y[0], y1 + 256 * (y2 + 256 * y3));
    LowByte(x[1], x2 + 256 * x3, y[1], y2 + 256 * y3);
    LowByte(x[2], x[3], y[2], y[3]);
    assert x == [x[0], x[1], x[2], x[3]];
  }
}
