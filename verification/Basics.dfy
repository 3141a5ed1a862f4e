/** What several modules need. */
module Basics {

  datatype Option<+T> = None | Some(value: T)

  function Max(a: int, b: int): int {
    if a < b then b else a
  }
}

/** Requests and power states, which all DRAM standards share. */
module Requests {

  datatype RequestType = Read | Write | Refresh | PowerDown | SelfRefresh

  datatype Power = PowerUp | ActPowerDown | PrePowerDown | SelfRefreshing
}
