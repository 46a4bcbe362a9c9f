/** The 9×9 view's visual addressing (src/lib/gridview-utils.ts): section `s` is the 3×3
    block in block-row s/3, block-column s%3 of the 81-cell board, card `c` the cell in
    row c/3, column c%3 of that block, and the flat index is row*9 + column. This is a
    different numbering from the section-major one of GridUtils. */
module GridViewUtils {
  import opened GridTypes
  import opened JsNumber

  function GetGlobalIndex(sectionIndex: int, cardIndex: int): int {
    var sectionRow := FloorDiv(sectionIndex, 3);
    var sectionCol := Rem(sectionIndex, 3);
    var cardRow := FloorDiv(cardIndex, 3);
    var cardCol := Rem(cardIndex, 3);
    var globalRow := sectionRow * 3 + cardRow;
    var globalCol := sectionCol * 3 + cardCol;
    globalRow * 9 + globalCol
  }

  function GetLocalIndices(globalIndex: int): LocalIndices {
    var globalRow := FloorDiv(globalIndex, 9);
    var globalCol := Rem(globalIndex, 9);
    var sectionRow := FloorDiv(globalRow, 3);
    var sectionCol := FloorDiv(globalCol, 3);
    var cardRow := Rem(globalRow, 3);
    var cardCol := Rem(globalCol, 3);
    LocalIndices(sectionRow * 3 + sectionCol, cardRow * 3 + cardCol)
  }

  predicate IsCenterSection(sectionIndex: int) {
    sectionIndex == 4
  }

  predicate IsCenterCard(cardIndex: int) {
    cardIndex == 4
  }

  /** Section `s` picks the 3×3 block and card `c` the cell inside it: the board row of
      the cell lies in block-row s/3 at offset c/3, its column in block-column s%3 at
      offset c%3, so every address of the board lies in [0, 81). */
  lemma GlobalIndexInBlock(s: int, c: int)
    requires 0 <= s < 9 && 0 <= c < 9
    ensures var g := GetGlobalIndex(s, c);
      0 <= g < 81 &&
      (g / 9) / 3 == s / 3 && (g / 9) % 3 == c / 3 &&
      (g % 9) / 3 == s % 3 && (g % 9) % 3 == c % 3
  {
    var row, col := 3 * (s / 3) + c / 3, 3 * (s % 3) + c % 3;
    assert GetGlobalIndex(s, c) == row * 9 + col;
    DivModBy(row * 9 + col, 9, row, col);
    DivModBy(row, 3, s / 3, c / 3);
    DivModBy(col, 3, s % 3, c % 3);
  }

  /** Division by a positive divisor is determined by quotient and remainder. */
  lemma DivModBy(a: int, b: int, q: int, r: int)
    requires b == 3 || b == 9
    requires 0 <= r < b && a == q * b + r
    ensures a / b == q && a % b == r
  {
  }

  /** Every board address in [0, 81) names a section and a card in [0, 9). */
  lemma LocalIndicesInRange(g: int)
    requires 0 <= g < 81
    ensures var l := GetLocalIndices(g);
      0 <= l.sectionIndex < 9 && 0 <= l.cardIndex < 9
  {
  }

  /** Encoding then decoding gives the (section, card) pair back. */
  lemma LocalOfGlobal(s: int, c: int)
    requires 0 <= s < 9 && 0 <= c < 9
    ensures GetLocalIndices(GetGlobalIndex(s, c)) == LocalIndices(s, c)
  {
    GlobalIndexInBlock(s, c);
    assert 3 * (s / 3) + s % 3 == s;
    assert 3 * (c / 3) + c % 3 == c;
  }

  /** Decoding then encoding gives the board address back: with LocalOfGlobal, the two
      functions are inverse bijections between [0, 81) and [0, 9) × [0, 9). */
  lemma GlobalOfLocal(g: int)
    requires 0 <= g < 81
    ensures var l := GetLocalIndices(g);
      GetGlobalIndex(l.sectionIndex, l.cardIndex) == g
  {
    var row, col := g / 9, g % 9;
    var l := GetLocalIndices(g);
    assert l.sectionIndex == 3 * (row / 3) + col / 3;
    assert l.cardIndex == 3 * (row % 3) + col % 3;
    DivModBy(l.sectionIndex, 3, row / 3, col / 3);
    DivModBy(l.cardIndex, 3, row % 3, col % 3);
    assert GetGlobalIndex(l.sectionIndex, l.cardIndex) == (3 * (row / 3) + row % 3) * 9 + 3 * (col / 3) + col % 3;
  }

  /** On the board, the centre section is the middle block (rows and columns 3..5), the
      centre cards are the cells whose row and column are both 1 modulo 3, and the core
      goal is cell 40, the middle of the board. */
  lemma CenterCellsOnBoard(g: int)
    requires 0 <= g < 81
    ensures var l := GetLocalIndices(g);
      IsCenterSection(l.sectionIndex) <==> (3 <= g / 9 < 6 && 3 <= g % 9 < 6)
    ensures var l := GetLocalIndices(g);
      IsCenterCard(l.cardIndex) <==> ((g / 9) % 3 == 1 && (g % 9) % 3 == 1)
    ensures var l := GetLocalIndices(g);
      IsCenterSection(l.sectionIndex) && IsCenterCard(l.cardIndex) <==> g == 40
  {
  }
}
