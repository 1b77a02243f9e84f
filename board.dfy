/** Geometry of the simulated board: 40 cells numbered 0..39 around a loop,
    the cells that carry a board object, and Java's remainder operator. */
module Board {

  const Size := 40
  const Go := 0
  const JailCell := 10
  const GoToJailCell := 30

  const Railroads: set<int> := {5, 15, 25, 35}
  const Utilities: set<int> := {12, 28}

  /** The board objects that some cells dispatch to when the token lands on them. */
  datatype Space = CommunityChest | Chance | Jail | GoToJail

  /** The simulation's cell map: three Community Chest cells, three Chance
      cells, the jail and the go-to-jail cell; every other cell is plain. */
  function BoardSpaces(): (m: map<int, Space>)
    ensures forall c :: c in m ==> 0 <= c < Size
    ensures JailCell in m && m[JailCell] == Jail
    ensures GoToJailCell in m && m[GoToJailCell] == GoToJail
  {
    map[2 := CommunityChest, 7 := Chance, 10 := Jail, 17 := CommunityChest,
        22 := Chance, 30 := GoToJail, 33 := CommunityChest, 36 := Chance]
  }

  /** Whether the cell map sends a token landing on `cell` to the board
      object `s`. */
  predicate LandsOn(cell: int, s: Space)
  {
    cell in BoardSpaces() && BoardSpaces()[cell] == s
  }

  /** Java's `%` on ints, which truncates toward zero: the remainder takes the
      sign of the dividend (Dafny's own `%` never returns a negative value),
      and the two agree on non-negative dividends. By the board's size the
      remainder differs from its dividend by a multiple of the size, which
      with the sign rule fixes its value for negative dividends too. */
  function JavaRem(a: int, b: int): (r: int)
    requires b > 0
    ensures a >= 0 ==> 0 <= r < b && r == a % b
    ensures a < 0 ==> -b < r <= 0
    ensures b == Size ==> (a - r) % Size == 0
  {
    if a >= 0 then a % b else -((-a) % b)
  }

  /** How many cells forward the token travels from `from` to reach `to`:
      a number in 1..40, so a cell is a whole lap (40) ahead of itself. */
  function Ahead(from: int, to: int): int
  {
    (to - from - 1) % Size + 1
  }

  /** On the board, the distance ahead without the remainder: forward if
      `to` lies after `from`, otherwise around the corner past Go. */
  lemma AheadOnBoard(from: int, to: int)
    requires 0 <= from < Size && 0 <= to < Size
    ensures Ahead(from, to) == if to > from then to - from else to - from + Size
  {
  }

  /** `to` is the first cell of `cells` met when moving forward from `from`,
      not counting `from` itself. */
  ghost predicate IsNextOf(from: int, to: int, cells: set<int>)
  {
    to in cells && forall c :: c in cells ==> Ahead(from, to) <= Ahead(from, c)
  }
}
