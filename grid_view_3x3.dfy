/** The 3×3 board (src/components/GridView3x3/GridView3x3.tsx): nine cards, the index of
    the card being dragged and the index of the card being edited, changed by the view's
    event handlers. */
module GridView3x3 {
  import opened GridTypes
  import GridUtils

  const CenterCardIndex := 4
  const CardCounts := 9
  const CardColors := Colors("#f04902", "#ffa15c", "#ffcaa4")

  /** The default nine cards. The view spells out the same expression as gridUtils'
      getInitialCards with its own constants, so it is that function applied to them. */
  function GetInitialCards(): seq<Card> {
    GridUtils.GetInitialCards(CardCounts, CenterCardIndex, CardColors)
  }

  /** The default board: nine cards with distinct ids; the centre is the core goal in
      the main colour, the edge midpoints (the odd positions) take the secondary colour
      and the corners the tertiary one. */
  lemma InitialCardsDefaults()
    ensures var r := GetInitialCards();
      && |r| == 9
      && r[4].title == "核心目標" && r[4].bgColor == "#f04902"
      && (forall i :: 0 <= i < 9 && i != 4 ==> r[i].title == "關聯目標" && r[i].content == "說明...")
      && (forall i :: 0 <= i < 9 && i % 2 == 1 ==> r[i].bgColor == "#ffa15c")
      && (forall i :: 0 <= i < 9 && i % 2 == 0 && i != 4 ==> r[i].bgColor == "#ffcaa4")
      && (forall i, j :: 0 <= i < j < 9 ==> r[i].id != r[j].id)
  {
    var r := GetInitialCards();
    GridUtils.InitialCardsLayout(CardCounts, CenterCardIndex, CardColors);
    GridUtils.InitialCardIdsDistinct(CardCounts, CenterCardIndex, CardColors);
    forall i | 0 <= i < 9
      ensures r[i].bgColor == if i == 4 then "#f04902" else if i % 2 == 1 then "#ffa15c" else "#ffcaa4"
    {
      assert r[i].bgColor == GridUtils.DefaultColor(i, CenterCardIndex, CardColors);
      assert (i in {1, 3, 5, 7}) == (i % 2 == 1);
    }
  }

  /** `[a[i], a[j]] = [a[j], a[i]]` on a copy of the list. */
  function Swapped(s: seq<Card>, i: int, j: int): seq<Card>
    requires 0 <= i < |s| && 0 <= j < |s|
  {
    s[i := s[j]][j := s[i]]
  }

  /** A swap exchanges the two entries, leaves every other entry, keeps the same cards
      (a permutation), and undoes itself. */
  lemma SwappedIsExchange(s: seq<Card>, i: int, j: int)
    requires 0 <= i < |s| && 0 <= j < |s|
    ensures var r := Swapped(s, i, j);
      |r| == |s| && r[i] == s[j] && r[j] == s[i] &&
      (forall k :: 0 <= k < |s| && k != i && k != j ==> r[k] == s[k]) &&
      multiset(r) == multiset(s) &&
      Swapped(r, i, j) == s
  {
  }

  /** `{...base, ...updated}`: every field of a card is present in `updated`, so each one
      overrides the base and the merge is `updated` itself. */
  function MergeCard(base: Card, updated: Card): (r: Card)
    ensures r == updated
  {
    base.(id := updated.id, title := updated.title, content := updated.content, bgColor := updated.bgColor)
  }

  /** handleSave's new list: the edited card merged with `updated`, then (when asked)
      every card repainted with `updated.bgColor`. */
  function SavedCards(cards: seq<Card>, e: int, updated: Card, syncBgColor: bool): seq<Card>
    requires 0 <= e < |cards|
  {
    var merged := cards[e := MergeCard(cards[e], updated)];
    if syncBgColor then seq(|merged|, k requires 0 <= k < |merged| => merged[k].(bgColor := updated.bgColor))
    else merged
  }

  /** Saving puts `updated` at the edited position; every other card keeps its id, title
      and content, and keeps its colour unless the colour is broadcast, in which case all
      nine cards (the centre too) take `updated.bgColor`. */
  lemma SavedCardsEffect(cards: seq<Card>, e: int, updated: Card, syncBgColor: bool)
    requires 0 <= e < |cards|
    ensures var r := SavedCards(cards, e, updated, syncBgColor);
      |r| == |cards| && r[e] == updated &&
      forall k :: 0 <= k < |cards| && k != e ==>
        r[k].id == cards[k].id && r[k].title == cards[k].title && r[k].content == cards[k].content &&
        r[k].bgColor == (if syncBgColor then updated.bgColor else cards[k].bgColor)
  {
  }

  class Board {
    var cards: array<Card>
    var editIndex: Option<int>
    var dragIndex: Option<int>

    /** Nine cards, and the drag and edit indices (when set) name one of them. */
    ghost predicate Valid()
      reads this
    {
      && cards.Length == CardCounts
      && (dragIndex.Some? ==> 0 <= dragIndex.value < cards.Length)
      && (editIndex.Some? ==> 0 <= editIndex.value < cards.Length)
    }

    /** The view's first state: the cards restored from storage (or the defaults), no
        edit and no drag in progress. */
    constructor (initialCards: seq<Card>)
      requires |initialCards| == CardCounts
      ensures Valid() && fresh(cards)
      ensures cards[..] == initialCards && editIndex == None && dragIndex == None
    {
      cards := new Card[|initialCards|](i requires 0 <= i < |initialCards| => initialCards[i]);
      editIndex := None;
      dragIndex := None;
    }

    method HandleDragStart(index: int)
      requires Valid() && 0 <= index < cards.Length
      modifies this`dragIndex
      ensures Valid() && dragIndex == Some(index)
    {
      dragIndex := Some(index);
    }

    /** Dropping onto a different card than the one dragged exchanges the two; dropping
        with no drag in progress, or back onto the dragged card, changes no card. The drag
        ends either way. */
    method HandleDrop(dropIndex: int)
      requires Valid() && 0 <= dropIndex < cards.Length
      modifies this`dragIndex, cards
      ensures Valid() && dragIndex == None
      ensures old(dragIndex).Some? && old(dragIndex).value != dropIndex ==>
        cards[..] == Swapped(old(cards[..]), old(dragIndex).value, dropIndex)
      ensures old(dragIndex).None? || old(dragIndex).value == dropIndex ==>
        cards[..] == old(cards[..])
      ensures multiset(cards[..]) == multiset(old(cards[..]))
    {
      if dragIndex.Some? && dragIndex.value != dropIndex {
        var from := dragIndex.value;
        ghost var before := cards[..];
        cards[from], cards[dropIndex] := cards[dropIndex], cards[from];
        assert cards[..] == Swapped(before, from, dropIndex);
        SwappedIsExchange(before, from, dropIndex);
      }
      dragIndex := None;
    }

    method HandleEdit(index: int)
      requires Valid() && 0 <= index < cards.Length
      modifies this`editIndex
      ensures Valid() && editIndex == Some(index)
    {
      editIndex := Some(index);
    }

    /** With an edit in progress, the edited card becomes `updated`, every card is
        repainted with its colour when `syncBgColor` is set, and the edit ends; with none,
        nothing happens. */
    method HandleSave(updated: Card, syncBgColor: bool)
      requires Valid()
      modifies this`editIndex, cards
      ensures Valid() && editIndex == None
      ensures old(editIndex).Some? ==>
        cards[..] == SavedCards(old(cards[..]), old(editIndex).value, updated, syncBgColor)
      ensures old(editIndex).None? ==> cards[..] == old(cards[..])
    {
      if editIndex.Some? {
        var e := editIndex.value;
        cards[e] := MergeCard(cards[e], updated);
        if syncBgColor {
          ghost var merged := cards[..];
          var k := 0;
          while k < cards.Length
            invariant 0 <= k <= cards.Length
            invariant forall j :: 0 <= j < cards.Length ==>
              cards[j] == if j < k then merged[j].(bgColor := updated.bgColor) else merged[j]
            modifies cards
          {
            cards[k] := cards[k].(bgColor := updated.bgColor);
            k := k + 1;
          }
        }
        editIndex := None;
      }
    }

    method HandleCancel()
      requires Valid()
      modifies this`editIndex
      ensures Valid() && editIndex == None
    {
      editIndex := None;
    }

    /** The reset listener: a fresh default board, no edit in progress; an ongoing drag
        is left as it is. Every reset yields the same board. */
    method Reset()
      requires Valid()
      modifies this`cards, this`editIndex
      ensures Valid() && fresh(cards)
      ensures cards[..] == GetInitialCards() && editIndex == None && dragIndex == old(dragIndex)
    {
      var initialCards := GetInitialCards();
      cards := new Card[|initialCards|](i requires 0 <= i < |initialCards| => initialCards[i]);
      editIndex := None;
    }
  }
}
