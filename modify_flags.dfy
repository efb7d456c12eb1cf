/** Which rewrites to apply to a forwarded packet (ModifyFlags.cs). */
module ModifyFlags {
  type Bits = bv8

  const None: Bits := 0
  const Truncate: Bits := 0x01
  const Corrupt: Bits := 0x02
  const Rewrite: Bits := 0x04
  const WindowClamp: Bits := 0x08
  const MssClamp: Bits := 0x10
}
