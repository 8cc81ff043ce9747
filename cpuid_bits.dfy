/**
 * The bit helpers and register layout of the AMX detection header.
 *
 * The helpers are unsigned 32-bit expressions: the `1 << 31` that the header
 * computes in C `int` is taken here as the bit pattern 0x8000_0000, and every
 * subtraction wraps modulo 2^32, exactly as `bv32` arithmetic does. A bit
 * position is a `bv5`: the macros are only defined for positions 0..31.
 */
module CpuidBits {

  /** A C `unsigned int` value, compared as a number. */
  type uint32 = x: int | 0 <= x < 0x1_0000_0000

  /** A bit position inside a 32-bit register. */
  type BitIndex = bv5

  /** The four register slots a CPUID query returns, in ordinal order 0..3. */
  datatype RegisterName = RegisterEax | RegisterEbx | RegisterEcx | RegisterEdx
  {
    function Ordinal(): (n: nat)
      ensures n < 4
    {
      match this
      case RegisterEax => 0
      case RegisterEbx => 1
      case RegisterEcx => 2
      case RegisterEdx => 3
    }
  }

  /** The result of one CPUID query: four 32-bit registers. */
  datatype CpuidRegisters = CpuidRegisters(eax: uint32, ebx: uint32, ecx: uint32, edx: uint32)
  {
    /** The array view of the union: slot `i` of `Registers[4]`. */
    function Registers(i: nat): uint32
      requires i < 4
    {
      if i == 0 then eax else if i == 1 then ebx else if i == 2 then ecx else edx
    }

    /** The register a feature row names, read through its ordinal. */
    function Get(r: RegisterName): (v: uint32)
      ensures r == RegisterEax ==> v == eax
      ensures r == RegisterEbx ==> v == ebx
      ensures r == RegisterEcx ==> v == ecx
      ensures r == RegisterEdx ==> v == edx
    {
      Registers(r.Ordinal())
    }
  }

  /** Reference meaning of "bit i of v is set": the one-bit mask at `i` meets `v`. */
  predicate IsSet(v: bv32, i: BitIndex)
  {
    v & (1 << i) != 0
  }

  /** BIT_CHECK: isolate bit `b` with a one-bit mask, then shift it down to bit 0. */
  function BitCheck(v: bv32, b: BitIndex): (r: bv32)
    ensures r == if IsSet(v, b) then 1 else 0
  {
    (v & (1 << b)) >> b
  }

  /**
   * CREATE_BITMASK: the bits strictly below `stop` but not below `start`,
   * together with bit `stop` itself; that is, exactly the bits `start..stop`.
   */
  function CreateBitmask(start: BitIndex, stop: BitIndex): (m: bv32)
    requires start <= stop
    ensures forall i: BitIndex :: IsSet(m, i) <==> start <= i <= stop
  {
    (((1 << stop) - 1) ^ ((1 << start) - 1)) | (1 << stop)
  }

  /** The number of bits in the inclusive range `start..stop`, 1..32. */
  function FieldWidth(start: BitIndex, stop: BitIndex): (w: bv6)
    requires start <= stop
    ensures 1 <= w <= 32
  {
    (stop - start) as bv6 + 1
  }

  /**
   * BIT_FIELD_CHECK: mask bits `start..stop` and right-justify them. The
   * result fits in FieldWidth(start, stop) bits; a one-bit field is
   * BIT_CHECK, and the field 0..31 is the whole register.
   */
  function BitFieldCheck(v: bv32, start: BitIndex, stop: BitIndex): (r: bv32)
    requires start <= stop
    ensures r >> FieldWidth(start, stop) == 0
    ensures start == stop ==> r == BitCheck(v, start)
    ensures start == 0 && stop == 31 ==> r == v
  {
    (v & CreateBitmask(start, stop)) >> start
  }

  /** Worked values for the helpers. */
  lemma HelperExamples()
    ensures BitFieldCheck(0xFFFF_FFFF, 4, 7) == 0xF
    ensures BitCheck(1, 24) == 0 && BitCheck(1, 25) == 0 && BitCheck(1, 0) == 1
    ensures BitCheck(0x0100_0000, 24) == 1
    ensures CreateBitmask(0, 31) == 0xFFFF_FFFF && CreateBitmask(31, 31) == 0x8000_0000
    ensures CreateBitmask(8, 23) == 0x00FF_FF00
  {
  }

  /** The fields of the feature table that start at bit 0 are the register under a low mask. */
  lemma LowFieldShapes(v: bv32)
    ensures BitFieldCheck(v, 0, 15) == v & 0xFFFF && BitFieldCheck(v, 0, 7) == v & 0xFF
  {
  }

  /** The fields of the feature table that start above bit 0 are the register shifted down, then masked. */
  lemma ShiftedFieldShapes(v: bv32)
    ensures BitFieldCheck(v, 16, 31) == v >> 16 && BitFieldCheck(v, 8, 23) == (v >> 8) & 0xFFFF
  {
  }
}
