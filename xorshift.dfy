/** The 32-bit xorshift generator Jitter and OutOfOrder step once per packet (shifts 13, 17, 5). */
module XorShift {
  function Next(x: bv32): (y: bv32)
    ensures x != 0 ==> y != 0
    ensures x == 0 ==> y == 0
  {
    var a := x ^ (x << 13);
    var b := a ^ (a >> 17);
    b ^ (b << 5)
  }
}
