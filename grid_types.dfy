/** The records the grid code passes around: a card, a section of cards, the colour
    palette the default boards are painted with, and the {sectionIndex, cardIndex} pair
    both address mappers return. */
module GridTypes {

  /** `CardData`: `content` is the rich-text document serialized as a string. */
  datatype Card = Card(id: string, title: string, content: string, bgColor: string)

  /** `GridSection`: a section of the 9×9 board and its cards. */
  datatype Section = Section(id: string, sectionIndex: int, cards: seq<Card>)

  /** The `{ main, secondary, tertiary }` palette of the default boards. */
  datatype Colors = Colors(main: string, secondary: string, tertiary: string)

  /** The `{ sectionIndex, cardIndex }` address of one cell. */
  datatype LocalIndices = LocalIndices(sectionIndex: int, cardIndex: int)

  datatype Option<T> = None | Some(value: T)

  /** What a JavaScript function hands back: a value, or the exception it throws. */
  datatype Result<T> = Ok(value: T) | Thrown(error: JsError)

  /** Reading a property (`.cards`) of `undefined`, as when an array slot is missing. */
  datatype JsError = TypeError

  /** Two cards show the same thing: the three fields the mirror copies agree. */
  predicate SameContent(a: Card, b: Card) {
    a.title == b.title && a.content == b.content && a.bgColor == b.bgColor
  }

  /** The card at section `s`, position `c` of a board, when that slot exists. */
  predicate HasCell(sections: seq<Section>, s: int, c: int) {
    0 <= s < |sections| && 0 <= c < |sections[s].cards|
  }
}
