/** The action bits a rule returns and the pipeline ORs into the result (ActionMask.cs). */
module ActionMask {
  type Bits = bv16

  const None: Bits := 0
  const Drop: Bits := 0x01
  const Blackhole: Bits := 0x02
  const Delay: Bits := 0x04
  const Duplicate: Bits := 0x08
  const Modify: Bits := 0x10
  const Inject: Bits := 0x20

  /** The bits set in either mask. */
  function Union(a: Bits, b: Bits): Bits {
    a | b
  }

  /** A mask that ends pipeline evaluation: it contains Drop or Blackhole. */
  predicate IsTerminal(m: Bits) {
    m & (Drop | Blackhole) != 0
  }

  /** Whether all the bits of `flag` are set in `m`. */
  predicate Has(m: Bits, flag: Bits) {
    m & flag == flag
  }

  /** The OR of every mask in `ms`, in order. */
  function OrAll(ms: seq<Bits>): Bits {
    if |ms| == 0 then None else ms[0] | OrAll(ms[1..])
  }

  lemma OrAssociates(a: Bits, b: Bits, c: Bits)
    ensures a | (b | c) == (a | b) | c
  {
  }

  /** `m` with the masks of `ms` ORed in one by one, from the first to the last. */
  function OrInto(m: Bits, ms: seq<Bits>): Bits
    decreases |ms|
  {
    if |ms| == 0 then m else OrInto(Union(m, ms[0]), ms[1..])
  }

  lemma {:induction false} OrIntoIsOr(m: Bits, ms: seq<Bits>)
    ensures OrInto(m, ms) == m | OrAll(ms)
    decreases |ms|
  {
    if |ms| > 0 {
      OrIntoIsOr(Union(m, ms[0]), ms[1..]);
      OrAssociates(m, ms[0], OrAll(ms[1..]));
    }
  }
}
