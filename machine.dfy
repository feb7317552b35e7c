/** Fixed-width unsigned integers of the target (a 32-bit Cortex-M core) and the
    option and result wrappers the rest of the model uses. */
module Machine {

  const U16_MODULUS: int := 0x1_0000
  const U32_MODULUS: int := 0x1_0000_0000
  const U32_MAX: int := 0xFFFF_FFFF
  const U64_MODULUS: int := 0x1_0000_0000_0000_0000

  type u8 = x: int | 0 <= x < 0x100
  type u16 = x: int | 0 <= x < U16_MODULUS
  type u32 = x: int | 0 <= x < U32_MODULUS
  type u64 = x: int | 0 <= x < U64_MODULUS

  datatype Option<T> = None | Some(value: T)

  datatype Result<T, E> = Success(value: T) | Failure(error: E)
}
