# Mandala chart grid logic, modelled in Dafny

This project models the data logic of a mandala-chart planning board: a 3×3 board of
nine cards, and a 9×9 board made of nine sections of nine cards each. In the 9×9 board the
centre section's eight outer cards mirror the centre cards of the eight surrounding
sections. The model covers:

- `JsNumber` (js_number.dfy): the JavaScript integer operations the code relies on.
  `Math.floor(a / b)` is floor division. `%` truncates toward zero, so its result takes
  the sign of the dividend. `${n}` renders a number in decimal.
- `GridTypes` (grid_types.dfy): `CardData`, `GridSection`, the colour palette, and the
  `{ sectionIndex, cardIndex }` pair. It also holds `Result`, which stands for a
  JavaScript `TypeError` thrown when `.cards` is read from a missing section.
- `GridUtils` (grid_utils.dfy): `src/utils/grid/gridUtils.ts`. It has the section-major
  address mapper (`s*9 + c`), the default boards, `syncCardContent`, `syncRelatedCards`
  and `syncCenterToPeriphery`. The two sync functions are methods that copy the board and
  then write slots in turn; the second one uses a loop. Each is proved equal to a
  declarative function (`SyncRelated`, `SyncCenter`), and the lemmas state what those
  functions promise. The main promise is the mirror invariant `Mirrored`. Boards are
  sequence values here, so a sync never changes the board it was given.
- `GridViewUtils` (gridview_utils.dfy): `src/lib/gridview-utils.ts`, the visual
  row/column block addressing of the 9×9 view. It is kept apart from the section-major
  mapper.
- `GridView3x3` (grid_view_3x3.dfy): the state of the 3×3 view as a class `Board`. The
  class holds a nine-card array, `editIndex` and `dragIndex`, and has one method per
  event handler.
- `DragDrop` (drag_drop.dfy): the `useDragDrop` hook as a class `DragState` with one field.

Where the design description and the code disagree, the model follows the code:

- With "sync colour" on, the 3×3 save repaints all nine cards, the centre card included.
  The design says only the siblings are repainted and the centre card is skipped.
- The 3×3 reset leaves `dragIndex` as it is. The design says a reset clears the drag
  session.
- The 3×3 reset rebuilds the defaults and runs no mirror step.

## Model

| member | source | states |
|---|---|---|
| GridUtils.LocalOfGlobal | src/utils/grid/gridUtils.ts:230-248 | for s ≥ 0 and c in [0, 9), decoding `s*9 + c` gives back (s, c) |
| GridUtils.GlobalOfLocal | src/utils/grid/gridUtils.ts:230-248 | every g ≥ 0 decodes to a section ≥ 0 and a card in [0, 9), and these encode back to g |
| GridUtils.NegativeGlobalIndex | src/utils/grid/gridUtils.ts:242-248 | for g < 0 the card index is ≤ 0 (JavaScript `%` truncates), and the round trip returns g exactly when 9 divides g |
| GridUtils.CoreGoalAddress | src/utils/grid/gridUtils.ts:242-266 | `isCenterSection` holds exactly for indices 36..44, and `isCenterSection && isCenterCard` holds exactly for index 40, the core goal |
| GridUtils.InitialCardsLayout | src/utils/grid/gridUtils.ts:64-81 | `getInitialCards` gives `total` cards with ids `card-i` and content "說明...", the title "核心目標" exactly at the centre index, and main / secondary (1, 3, 5, 7) / tertiary colours |
| GridUtils.InitialCardIdsDistinct | src/utils/grid/gridUtils.ts:72 | no two default cards share an id |
| GridUtils.InitialSectionsLayout | src/utils/grid/gridUtils.ts:92-124 | `getInitialSections` gives `sectionTotal` sections, each with `cardTotal` cards; `sectionIndex` is the position; ids are `section-s` and `section-s-card-c`; the centre position is titled "核心目標"; cards outside the centre section are `#ffffff`; centre-section cards take the palette |
| GridUtils.InitialSectionCardIdsDistinct | src/utils/grid/gridUtils.ts:105 | no two cards of the default 9×9 board share an id |
| GridUtils.SyncCardContentIdempotent | src/utils/grid/gridUtils.ts:132-140 | copying the same source twice equals copying it once; a copy leaves the target unchanged exactly when the target already shows the source's title, content and colour |
| GridUtils.SyncCardContent | src/utils/grid/gridUtils.ts:132-140 | the result keeps the target's id and has the source's title, content and bgColor |
| GridUtils.MirrorOfInvolutive | src/utils/grid/gridUtils.ts:162-186 | with the centre section at the centre position, only the core goal and the outer cards of surrounding sections have no mirror; a mirror swaps centre-section and centre-card roles; the mirror of the mirror is the edited cell |
| GridUtils.SyncRelatedCards | src/utils/grid/gridUtils.ts:152-189 | the copy-then-assign method returns exactly `SyncRelated` of its inputs, including the thrown TypeError |
| GridUtils.SyncRelatedEffect | src/utils/grid/gridUtils.ts:159-188 | the call throws exactly when the edited cell has a mirror whose section is missing; otherwise the board keeps its shape and only the mirror cell changes, taking the edited card's content and keeping its id; with no mirror, the board is returned unchanged |
| GridUtils.AtMostOneCardChanges | src/utils/grid/gridUtils.ts:159-188 | any two cards that differ after the call are the same card, and no id changes |
| GridUtils.EditKeepsMirrored | src/utils/grid/gridUtils.ts:159-188 | on a mirrored square board, editing any cell and then syncing it leaves the board mirrored |
| GridUtils.SyncCenterToPeriphery | src/utils/grid/gridUtils.ts:198-222 | the loop over the centre section's cards returns exactly `SyncCenter`: it throws when the centre section is missing or names a missing section, and otherwise returns `MirrorCenter` |
| GridUtils.MirrorCenterEffect | src/utils/grid/gridUtils.ts:203-221 | seeding changes only card `cc` of each section p ≠ cc named by the centre section, giving it the content of centre card p; shape and ids are kept |
| GridUtils.MirrorCenterMirrors | src/utils/grid/gridUtils.ts:206-219 | after seeding, every section p ≠ cc shows at position cc what the centre section shows at position p |
| GridUtils.MirrorCenterIdempotent | src/utils/grid/gridUtils.ts:198-222 | seeding a seeded board returns it unchanged |
| GridUtils.DefaultBoardNeedsSeeding | src/utils/grid/gridUtils.ts:92-124 | the default 9×9 board is not mirrored as built, and one seeding with centre 4 makes it mirrored |
| GridViewUtils.GlobalIndexInBlock | src/lib/gridview-utils.ts:11-24 | for s, c in [0, 9) the address is in [0, 81); its row lies in block row s/3 at offset c/3 and its column in block column s%3 at offset c%3 |
| GridViewUtils.LocalIndicesInRange | src/lib/gridview-utils.ts:31-46 | every address in [0, 81) decodes to a section and a card in [0, 9) |
| GridViewUtils.LocalOfGlobal | src/lib/gridview-utils.ts:11-46 | decoding the address of (s, c) gives back (s, c) for s, c in [0, 9) |
| GridViewUtils.GlobalOfLocal | src/lib/gridview-utils.ts:11-46 | encoding the decoded pair gives back g for g in [0, 81), so the two functions are inverse bijections |
| GridViewUtils.CenterCellsOnBoard | src/lib/gridview-utils.ts:31-64 | on the board, `isCenterSection` holds exactly in rows and columns 3..5; `isCenterCard` holds exactly where row and column are both 1 mod 3; both hold exactly at address 40 |
| GridView3x3.InitialCardsDefaults | src/components/GridView3x3/GridView3x3.tsx:9-36 | the 3×3 default is nine cards with distinct ids; card 4 is "核心目標" in `#f04902`; cards 1, 3, 5, 7 are `#ffa15c`; the other corners and edges are `#ffcaa4` |
| GridView3x3.SwappedIsExchange | src/components/GridView3x3/GridView3x3.tsx:72-77 | the swap exchanges the two entries, keeps every other entry, gives a permutation, and undoes itself |
| GridView3x3.MergeCard | src/components/GridView3x3/GridView3x3.tsx:92-95 | `{...old, ...updated}` with a complete card is `updated` |
| GridView3x3.SavedCardsEffect | src/components/GridView3x3/GridView3x3.tsx:88-101 | the edited position becomes `updated`; the other cards keep id, title and content; their colour is kept, or set to `updated.bgColor` for all nine when broadcasting |
| GridView3x3.Board.constructor | src/components/GridView3x3/GridView3x3.tsx:57-59 | the board starts from the given cards with no edit and no drag |
| GridView3x3.Board.HandleDragStart | src/components/GridView3x3/GridView3x3.tsx:66-68 | `dragIndex` becomes the given index |
| GridView3x3.Board.HandleDrop | src/components/GridView3x3/GridView3x3.tsx:70-82 | with a drag from a different card, the two cards are exchanged; otherwise the cards are unchanged; the cards remain a permutation; `dragIndex` is none afterwards in every case |
| GridView3x3.Board.HandleEdit | src/components/GridView3x3/GridView3x3.tsx:84-86 | `editIndex` becomes the given index |
| GridView3x3.Board.HandleSave | src/components/GridView3x3/GridView3x3.tsx:88-106 | with an edit in progress, the cards become `SavedCards` of the old cards and the edit ends; with none, nothing changes |
| GridView3x3.Board.HandleCancel | src/components/GridView3x3/GridView3x3.tsx:108-110 | `editIndex` becomes none and the cards are untouched |
| GridView3x3.Board.Reset | src/components/GridView3x3/GridView3x3.tsx:117-122 | the cards become the default nine, so every reset gives the same board; `editIndex` becomes none; `dragIndex` is kept |
| DragDrop.DragState.constructor | src/hooks/useDragDrop.ts:4 | no drag at first |
| DragDrop.DragState.HandleDragStart | src/hooks/useDragDrop.ts:6-8 | `dragIndex` becomes the index, `hasDragIndex` holds, and `isDragging(j)` holds exactly for j = index |
| DragDrop.DragState.ResetDrag | src/hooks/useDragDrop.ts:10-12 | `dragIndex` becomes none, `hasDragIndex` fails, and `isDragging` fails for every index |
| DragDrop.DraggingIsOneCard | src/hooks/useDragDrop.ts:14-23 | `hasDragIndex` holds exactly when some card is being dragged, and then only one card is |

## Left out

- Persistence: `loadCardsFromStorage`, `saveCardsToStorage`, `loadSectionsFromStorage`,
  `saveSectionsToStorage` and the 3×3 save-on-change effect. These are browser storage
  plus `JSON.parse` and `JSON.stringify`. The 3×3 loader has no `try`, so malformed
  stored text throws there.
- GridView3x3.Board.constructor: takes the restored list as a parameter and requires
  nine cards. That is what this view itself writes to storage. Lists of another length,
  written by other means, are not modelled.
- `centeredCardModal` and the modal-position effect: they use window size and
  floating-point division.
- The 9×9 view component: its drag, drop and save handlers are placeholders, and the rest
  is rendering.
- The card component's DOM guard refuses drag and drop on the centre card. It is a gesture
  gate outside the board logic, so `HandleDrop` does not require `dropIndex != 4`.
- GridView3x3.Board.HandleDrop: the view swaps two slots of a copy and then installs the
  copy; the model swaps in place on the board's array.
- GridView3x3.Board.HandleSave: the view's broadcast loop writes `bgColor` into card
  objects that the previous state array shares. The model treats cards as values, so
  that aliasing is not modelled.
- Non-integer and out-of-range JavaScript numbers: indices are modelled as integers.
  `Array(n)` is modelled for n ≥ 0 only; a negative length throws `RangeError` in
  JavaScript. Writing past the end of a JavaScript array, which grows the array, is not
  modelled. The 3×3 handlers' indices come from the rendered cards and are required to be
  in range.
- `GridViewUtils`: negative or out-of-range inputs are given the JavaScript `Math.floor`
  and `%` meaning, but no lemma covers them.
- Rendering, the rich-text editor, the colour picker, screenshots, the reset button's
  window event, the grid context and mode toggle: these are user-interface code.
