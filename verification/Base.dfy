/** Small datatypes the other modules share. */
module Base {

  datatype Option<+T> = None | Some(value: T) {
    function GetOr(default: T): T {
      match this
      case Some(v) => v
      case None => default
    }
  }

  datatype Result<+T, +E> = Ok(value: T) | Err(error: E)

  /** The three answers of a comparison. */
  datatype Order = Less | Equal | Greater {
    function Flip(): Order {
      match this
      case Less => Greater
      case Equal => Equal
      case Greater => Less
    }

    /** The first comparison, and the second one when the first is a tie. */
    function Then(next: Order): Order {
      if this == Equal then next else this
    }
  }

  const U32_LIMIT := 0x1_0000_0000
  const U64_LIMIT := 0x1_0000_0000_0000_0000

  function Min(a: int, b: int): int {
    if a < b then a else b
  }

  function Max(a: int, b: int): int {
    if a > b then a else b
  }

  /** Subtraction that stops at zero, as `saturating_sub` does. */
  function SatSub(a: nat, b: nat): nat {
    if a < b then 0 else a - b
  }

  function CmpInt(a: int, b: int): Order {
    if a < b then Less else if a == b then Equal else Greater
  }

  /** The steps a run may take before it is stopped. */
  datatype Fuel = Endless | Steps(n: nat) {
    function Spend(): Fuel
      requires this != Steps(0)
    {
      if Endless? then Endless else Steps(n - 1)
    }
  }
}
