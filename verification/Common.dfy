/** Options and the unsigned 16-bit arithmetic the program uses for widths. */
module Common {
  import opened Bits

  datatype Option<T> = None | Some(value: T)

  datatype Result<T, E> = Ok(value: T) | Err(error: E)

  const U16 := 65535

  function CheckedAdd(a: nat, b: nat): Option<nat> {
    if a + b <= U16 then Some(a + b) else None
  }

  function SaturatingAdd(a: nat, b: nat): nat {
    Min(a + b, U16)
  }

  function SaturatingSub(a: nat, b: nat): nat {
    if a >= b then a - b else 0
  }
}
