/** Values shared by every part of the model: Go's nil-or-value, error returns
    and the fixed-width integers the Go code converts between. */
module Common {

  /** A Go value that may be nil: a map, a pointer, or a slice whose nil-ness matters. */
  datatype Option<+T> = None | Some(value: T) {
    function GetOr(default: T): T {
      match this
      case Some(v) => v
      case None => default
    }
  }

  /** A Go `(value, error)` pair where exactly one side is meaningful. */
  datatype Result<+T> = Ok(value: T) | Err(msg: string)

  const Int32Min: int := -0x8000_0000
  const Int32Max: int := 0x7fff_ffff
  const Int64Min: int := -0x8000_0000_0000_0000
  const Int64Max: int := 0x7fff_ffff_ffff_ffff

  predicate IsInt32(x: int) { -0x8000_0000 <= x <= 0x7fff_ffff }
  predicate IsInt64(x: int) { -0x8000_0000_0000_0000 <= x <= 0x7fff_ffff_ffff_ffff }

  type Int32 = x: int | -0x8000_0000 <= x <= 0x7fff_ffff
  type Int64 = x: int | -0x8000_0000_0000_0000 <= x <= 0x7fff_ffff_ffff_ffff

  /** Go's `int32(x)` conversion: keeps the low 32 bits, read as two's complement. */
  function WrapInt32(x: int): (r: Int32)
    ensures (r - x) % 0x1_0000_0000 == 0
    ensures IsInt32(x) ==> r == x
  {
    (x + 0x8000_0000) % 0x1_0000_0000 - 0x8000_0000
  }

  /** Clamps to the int64 range, as Go's `time.Time.Sub` does for durations. */
  function SaturateInt64(x: int): (r: Int64)
    ensures IsInt64(x) ==> r == x
    ensures x < Int64Min ==> r == Int64Min
    ensures x > Int64Max ==> r == Int64Max
  {
    if x < Int64Min then Int64Min else if x > Int64Max then Int64Max else x
  }

  /** Go's `m[k]` on a possibly-nil map: the zero value when the key is absent. */
  function Lookup(m: Option<map<string, string>>, k: string): (r: string)
    ensures m.Some? && k in m.value ==> r == m.value[k]
    ensures (m.None? || k !in m.value) ==> r == ""
  {
    if m.Some? && k in m.value then m.value[k] else ""
  }
}
