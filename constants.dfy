/**
 * The numeric game parameters and the enumerations the core is driven by
 * (src/constants.ts and src/type.ts).  Style strings and colours are not modelled.
 */
module Constants {

  /** Number of cells in one floor (one board row). */
  const CellPerFloor: int := 9

  /** Upper bound on the length of the marathon sliding window. */
  const TotalMarathonFloors: int := 1500

  datatype GameMode = Normal | Hard | Fast | Marathon

  datatype PlayerMode = Single | Multi

  /** The classified pointer action handed to the board by the input layer. */
  datatype ActionType = Click | DbClick | Drag | NoAction

  function TotalFloors(mode: GameMode): int {
    match mode
    case Normal => 150
    case Hard => 400
    case Fast => 150
    case Marathon => 100
  }

  function RevealableFloors(mode: GameMode): int {
    match mode
    case Normal => 5
    case Hard => 3
    case Fast => 2
    case Marathon => 3
  }

  function TotalMines(mode: GameMode): int {
    match mode
    case Normal => 100
    case Hard => 600
    case Fast => 100
    case Marathon => 50
  }

  function MaxMineNeighbs(mode: GameMode): int {
    match mode
    case Normal => 0
    case Hard => 5
    case Fast => 3
    case Marathon => 0
  }
}
