/**
 * The dirg pad model: button identifiers, their ordering, and the colour
 * state of a Launchpad (an 8x8 grid plus a horizontal and a vertical
 * margin of 8 buttons each).
 */
module DirgPad {

  datatype ButtonGroup = Grid | MarginH | MarginV

  /** A button: its group and the row and column inside that group. */
  datatype ButtonID = ButtonID(group: ButtonGroup, row: int, col: int)

  /** ButtonID::operator<: by row, then by column; the group plays no part. */
  predicate IdLess(a: ButtonID, b: ButtonID)
  {
    a.row < b.row || (a.row == b.row && a.col < b.col)
  }

  /** The ordering is a strict weak order on (row, col). */
  lemma IdLessStrictWeakOrder(a: ButtonID, b: ButtonID, c: ButtonID)
    ensures !IdLess(a, a)
    ensures IdLess(a, b) ==> !IdLess(b, a)
    ensures IdLess(a, b) && IdLess(b, c) ==> IdLess(a, c)
    ensures !IdLess(a, b) && !IdLess(b, a) <==> a.row == b.row && a.col == b.col
  {
  }

  /**
   * Two ids at the same row and column are equivalent under the ordering
   * even when their groups differ, so an ordered container keyed by
   * ButtonID cannot tell them apart.
   */
  lemma IdLessIgnoresGroup(a: ButtonID, g: ButtonGroup)
    ensures !IdLess(a, a.(group := g)) && !IdLess(a.(group := g), a)
  {
  }

  /** The stored colour; hue and value are only stored, never computed on. */
  datatype ButtonState = ButtonState(hue: real, value: real)

  /** A freshly constructed ButtonState. */
  const Unlit := ButtonState(0.0, 0.0)

  /** The ids that PadState::get and set_colour can address without leaving their arrays. */
  predicate Addressable(id: ButtonID)
  {
    match id.group
    case Grid => 0 <= id.row < 8 && 0 <= id.col < 8
    case MarginH => 0 <= id.col < 8
    case MarginV => 0 <= id.row < 8
  }

  /** The storage cell an id addresses. */
  datatype Cell = GridCell(r: int, c: int) | HCell(c: int) | VCell(r: int)

  function CellOf(id: ButtonID): (cell: Cell)
  {
    match id.group
    case Grid => GridCell(id.row, id.col)
    case MarginH => HCell(id.col)
    case MarginV => VCell(id.row)
  }

  /**
   * A horizontal margin button is addressed by its column only, a vertical
   * one by its row only, a grid button by both.
   */
  lemma CellOfUnusedCoordinate(id: ButtonID, other: int)
    ensures id.group == MarginH ==> CellOf(id.(row := other)) == CellOf(id)
    ensures id.group == MarginV ==> CellOf(id.(col := other)) == CellOf(id)
    ensures id.group == Grid ==> (CellOf(id.(row := other)) == CellOf(id) <==> other == id.row)
    ensures id.group == Grid ==> (CellOf(id.(col := other)) == CellOf(id) <==> other == id.col)
  {
  }

  class PadState {
    var marginH: array<ButtonState>
    var marginV: array<ButtonState>
    var grid: array2<ButtonState>

    ghost predicate Valid()
      reads this
    {
      marginH.Length == 8 && marginV.Length == 8 && grid.Length0 == 8 && grid.Length1 == 8
      && marginH != marginV
    }

    /** Every button starts unlit (the ButtonState constructor zeroes each entry). */
    constructor ()
      ensures Valid() && fresh(marginH) && fresh(marginV) && fresh(grid)
      ensures forall id :: Addressable(id) ==> Get(id) == Unlit
    {
      marginH := new ButtonState[8](_ => Unlit);
      marginV := new ButtonState[8](_ => Unlit);
      grid := new ButtonState[8, 8]((_, _) => Unlit);
    }

    /** get */
    function Get(id: ButtonID): ButtonState
      requires Valid() && Addressable(id)
      reads this, marginH, marginV, grid
    {
      match id.group
      case Grid => grid[id.row, id.col]
      case MarginH => marginH[id.col]
      case MarginV => marginV[id.row]
    }

    /** set_colour: the addressed button takes the colour; no other cell changes. */
    method SetColour(id: ButtonID, hue: real, value: real)
      requires Valid() && Addressable(id)
      modifies marginH, marginV, grid
      ensures Valid()
      ensures Get(id) == ButtonState(hue, value)
      ensures forall other :: Addressable(other) && CellOf(other) != CellOf(id) ==> Get(other) == old(Get(other))
    {
      match id.group {
        case Grid => grid[id.row, id.col] := ButtonState(hue, value);
        case MarginH => marginH[id.col] := ButtonState(hue, value);
        case MarginV => marginV[id.row] := ButtonState(hue, value);
      }
    }
  }
}
