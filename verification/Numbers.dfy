/** Number operations of the original language: its 32-bit readings of an integer, and Math.round. */
module Numbers {

  function ToUint32(x: int): (r: nat)
    ensures r < 0x1_0000_0000
  {
    x % 0x1_0000_0000
  }

  /** The two's-complement reading. */
  function ToInt32(x: int): (r: int)
    ensures -0x8000_0000 <= r < 0x8000_0000
  {
    var m := x % 0x1_0000_0000;
    if m >= 0x8000_0000 then m - 0x1_0000_0000 else m
  }

  /** The nearest integer, halves upwards. */
  function Round(x: real): (r: int)
    ensures r as real - 0.5 <= x < r as real + 0.5
  {
    (x + 0.5).Floor
  }
}
