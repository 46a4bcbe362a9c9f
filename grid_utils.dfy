/** The 9×9 board's data logic (src/utils/grid/gridUtils.ts): the section-major address
    mapper, the default boards, and the mirror that keeps the centre section's cards and
    the centre cards of the eight surrounding sections showing the same thing. */
module GridUtils {
  import opened GridTypes
  import opened JsNumber

  const CoreTitle := "核心目標"
  const RelatedTitle := "關聯目標"
  const PlaceholderContent := "說明..."
  const White := "#ffffff"

  // ---------------------------------------------------------------------------
  // Section-major addressing: cell (s, c) is the flat index s*9 + c.

  function GetGlobalIndex(sectionIndex: int, cardIndex: int): int {
    sectionIndex * 9 + cardIndex
  }

  function GetLocalIndices(globalIndex: int): LocalIndices {
    LocalIndices(FloorDiv(globalIndex, 9), Rem(globalIndex, 9))
  }

  predicate IsCenterSection(sectionIndex: int) {
    sectionIndex == 4
  }

  predicate IsCenterCard(cardIndex: int) {
    cardIndex == 4
  }

  /** Decoding an encoded address gives the address back. */
  lemma LocalOfGlobal(s: int, c: int)
    requires s >= 0 && 0 <= c < 9
    ensures GetLocalIndices(GetGlobalIndex(s, c)) == LocalIndices(s, c)
  {
  }

  /** Every non-negative flat index decodes to a section and a card position in [0, 9)
      that encode back to it. */
  lemma GlobalOfLocal(g: int)
    requires g >= 0
    ensures var l := GetLocalIndices(g);
      l.sectionIndex >= 0 && 0 <= l.cardIndex < 9 && GetGlobalIndex(l.sectionIndex, l.cardIndex) == g
  {
  }

  /** A negative index decodes with a floored section but a truncated (negative) card
      position, so it encodes back to itself exactly when it is a multiple of 9. */
  lemma NegativeGlobalIndex(g: int)
    requires g < 0
    ensures var l := GetLocalIndices(g);
      l.cardIndex <= 0 && (GetGlobalIndex(l.sectionIndex, l.cardIndex) == g <==> g % 9 == 0)
  {
  }

  /** The core goal is the one cell that lies in the centre section at the centre
      position: flat index 40. */
  lemma CoreGoalAddress(g: int)
    requires g >= 0
    ensures var l := GetLocalIndices(g);
      IsCenterSection(l.sectionIndex) <==> 36 <= g < 45
    ensures var l := GetLocalIndices(g);
      IsCenterSection(l.sectionIndex) && IsCenterCard(l.cardIndex) <==> g == 40
  {
  }

  // ---------------------------------------------------------------------------
  // Default boards.

  /** Position `index` of a section painted with `colors`: the centre takes `main`, the
      four edge midpoints 1, 3, 5, 7 take `secondary`, the corners `tertiary`. */
  function DefaultColor(index: int, centerIndex: int, colors: Colors): string {
    if index == centerIndex then colors.main
    else if index in {1, 3, 5, 7} then colors.secondary
    else colors.tertiary
  }

  function GetInitialCards(total: nat, centerIndex: int, colors: Colors): seq<Card> {
    seq(total, index requires 0 <= index < total =>
      Card("card-" + NatToString(index),
           if index == centerIndex then CoreTitle else RelatedTitle,
           PlaceholderContent,
           DefaultColor(index, centerIndex, colors)))
  }

  function SectionId(sectionIndex: nat): string {
    "section-" + NatToString(sectionIndex)
  }

  function SectionCardId(sectionIndex: nat, cardIndex: nat): string {
    SectionId(sectionIndex) + "-card-" + NatToString(cardIndex)
  }

  function GetInitialSections(sectionTotal: nat, cardTotal: nat, centerSectionIndex: int,
                              centerCardIndex: int, colors: Colors): seq<Section>
  {
    seq(sectionTotal, sectionIndex requires 0 <= sectionIndex < sectionTotal =>
      Section(SectionId(sectionIndex), sectionIndex,
        seq(cardTotal, cardIndex requires 0 <= cardIndex < cardTotal =>
          Card(SectionCardId(sectionIndex, cardIndex),
               if cardIndex == centerCardIndex then CoreTitle else RelatedTitle + NatToString(cardIndex),
               PlaceholderContent,
               if sectionIndex == centerSectionIndex then DefaultColor(cardIndex, centerCardIndex, colors)
               else White))))
  }

  /** The default list of `total` cards: ids `card-i`, the placeholder text everywhere,
      the core-goal title exactly at the centre, and the palette by position. */
  lemma InitialCardsLayout(total: nat, centerIndex: int, colors: Colors)
    ensures var r := GetInitialCards(total, centerIndex, colors);
      |r| == total &&
      forall i :: 0 <= i < total ==>
        && r[i].id == "card-" + NatToString(i)
        && r[i].content == PlaceholderContent
        && (r[i].title == CoreTitle <==> i == centerIndex)
        && r[i].bgColor == DefaultColor(i, centerIndex, colors)
  {
  }

  /** No two default cards share an id (they key the rendered list). */
  lemma InitialCardIdsDistinct(total: nat, centerIndex: int, colors: Colors)
    ensures var r := GetInitialCards(total, centerIndex, colors);
      forall i, j :: 0 <= i < j < total ==> r[i].id != r[j].id
  {
    var r := GetInitialCards(total, centerIndex, colors);
    forall i, j | 0 <= i < j < total
      ensures r[i].id != r[j].id
    {
      var si, sj := NatToString(i), NatToString(j);
      if r[i].id == r[j].id {
        assert si == r[i].id[5..] == r[j].id[5..] == sj;
        NatToStringInjective(i, j);
      }
    }
  }

  /** The default 9×9 board: `sectionTotal` sections of `cardTotal` cards each, section
      `s` at position `s`, every card outside the centre section white, and every card at
      the centre position titled as the core goal. */
  lemma InitialSectionsLayout(sectionTotal: nat, cardTotal: nat, cs: int, cc: int, colors: Colors)
    ensures var r := GetInitialSections(sectionTotal, cardTotal, cs, cc, colors);
      |r| == sectionTotal &&
      forall s :: 0 <= s < sectionTotal ==>
        && r[s].sectionIndex == s
        && r[s].id == SectionId(s)
        && |r[s].cards| == cardTotal
        && forall c :: 0 <= c < cardTotal ==>
             && r[s].cards[c].id == SectionCardId(s, c)
             && r[s].cards[c].content == PlaceholderContent
             && (c == cc ==> r[s].cards[c].title == CoreTitle)
             && (s != cs ==> r[s].cards[c].bgColor == White)
             && (s == cs ==> r[s].cards[c].bgColor == DefaultColor(c, cc, colors))
  {
  }

  /** No two cards of the default 9×9 board share an id. */
  lemma InitialSectionCardIdsDistinct(sectionTotal: nat, cardTotal: nat, cs: int, cc: int, colors: Colors)
    ensures var r := GetInitialSections(sectionTotal, cardTotal, cs, cc, colors);
      forall s, c, s', c' ::
        (0 <= s < sectionTotal && 0 <= c < cardTotal &&
         0 <= s' < sectionTotal && 0 <= c' < cardTotal && (s, c) != (s', c')) ==>
        r[s].cards[c].id != r[s'].cards[c'].id
  {
    var r := GetInitialSections(sectionTotal, cardTotal, cs, cc, colors);
    forall s, c, s', c' | 0 <= s < sectionTotal && 0 <= c < cardTotal &&
      0 <= s' < sectionTotal && 0 <= c' < cardTotal && (s, c) != (s', c')
      ensures r[s].cards[c].id != r[s'].cards[c'].id
    {
      assert r[s].cards[c].id == SectionCardId(s, c);
      assert r[s'].cards[c'].id == SectionCardId(s', c');
      if r[s].cards[c].id == r[s'].cards[c'].id {
        assert "section-" + NatToString(s) + "-card-" + NatToString(c)
            == "section-" + NatToString(s') + "-card-" + NatToString(c');
        DigitRunDetermined("section-", NatToString(s), "-card-", NatToString(c),
                           NatToString(s'), NatToString(c'));
        NatToStringInjective(s, s');
        NatToStringInjective(c, c');
      }
    }
  }

  // ---------------------------------------------------------------------------
  // Copying a card's content.

  /** `{...target, title, content, bgColor}` taken from `source`. */
  function SyncCardContent(target: Card, source: Card): (r: Card)
    ensures r.id == target.id && SameContent(r, source)
  {
    target.(title := source.title, content := source.content, bgColor := source.bgColor)
  }

  /** Copying the same source twice is copying it once, and a copy changes nothing
      exactly when the target already shows the source's content. */
  lemma SyncCardContentIdempotent(target: Card, source: Card)
    ensures SyncCardContent(SyncCardContent(target, source), source) == SyncCardContent(target, source)
    ensures SyncCardContent(target, source) == target <==> SameContent(target, source)
  {
  }

  /** `cards.map((card, idx) => idx === k ? syncCardContent(card, source) : card)`. */
  function SyncSlot(cards: seq<Card>, k: int, source: Card): seq<Card> {
    seq(|cards|, idx requires 0 <= idx < |cards| =>
      if idx == k then SyncCardContent(cards[idx], source) else cards[idx])
  }

  /** `{...section, cards: SyncSlot(section.cards, k, source)}`. */
  function SyncSection(section: Section, k: int, source: Card): Section {
    section.(cards := SyncSlot(section.cards, k, source))
  }

  // ---------------------------------------------------------------------------
  // The mirror of one edited cell.

  /** The cell an edit of (s, c) is mirrored onto: a non-centre card of the centre
      section goes to the centre card of the section it names; the centre card of any
      other section goes to the centre section's card at that section's position. The
      core goal (cs, cc) and the other cards of the surrounding sections have none. */
  function MirrorOf(s: int, c: int, cs: int, cc: int): Option<LocalIndices> {
    if s == cs && c != cc then Some(LocalIndices(c, cc))
    else if s != cs && c == cc then Some(LocalIndices(cs, s))
    else None
  }

  /** With the centre section at the centre position (cs == cc), mirroring swaps the two
      roles and mirroring twice comes back to the edited cell; the only unmirrored cells
      are the core goal and the non-centre cards of the surrounding sections. */
  lemma MirrorOfInvolutive(s: int, c: int, m: int)
    ensures MirrorOf(s, c, m, m).None? <==> (s == m) == (c == m)
    ensures MirrorOf(s, c, m, m).Some? ==>
      var t := MirrorOf(s, c, m, m).value;
      (t.sectionIndex == m) == (s != m) && (t.cardIndex == m) == (c != m) &&
      MirrorOf(t.sectionIndex, t.cardIndex, m, m) == Some(LocalIndices(s, c))
  {
  }

  /** syncRelatedCards, as a value: the board with the mirror cell (if any) given the
      edited card's content, or the TypeError of reading `.cards` of a missing section. */
  function SyncRelated(sections: seq<Section>, sectionIndex: int, cardIndex: int, updatedCard: Card,
                       cs: int, cc: int): Result<seq<Section>>
  {
    match MirrorOf(sectionIndex, cardIndex, cs, cc)
    case None => Ok(sections)
    case Some(t) =>
      if 0 <= t.sectionIndex < |sections| then
        Ok(sections[t.sectionIndex := SyncSection(sections[t.sectionIndex], t.cardIndex, updatedCard)])
      else Thrown(TypeError)
  }

  /** Copies the board, then applies the two guarded writes in turn (at most one of
      them fires). */
  method SyncRelatedCards(sections: seq<Section>, sectionIndex: int, cardIndex: int, updatedCard: Card,
                          centerSectionIndex: int, centerCardIndex: int)
    returns (r: Result<seq<Section>>)
    ensures r == SyncRelated(sections, sectionIndex, cardIndex, updatedCard, centerSectionIndex, centerCardIndex)
  {
    var newSections := sections;
    if sectionIndex == centerSectionIndex && cardIndex != centerCardIndex {
      var targetSectionIndex, targetCardIndex := cardIndex, centerCardIndex;
      if !(0 <= targetSectionIndex < |newSections|) {
        return Thrown(TypeError);
      }
      newSections := newSections[targetSectionIndex :=
        SyncSection(newSections[targetSectionIndex], targetCardIndex, updatedCard)];
    }
    if sectionIndex != centerSectionIndex && cardIndex == centerCardIndex {
      var targetSectionIndex, targetCardIndex := centerSectionIndex, sectionIndex;
      if !(0 <= targetSectionIndex < |newSections|) {
        return Thrown(TypeError);
      }
      newSections := newSections[targetSectionIndex :=
        SyncSection(newSections[targetSectionIndex], targetCardIndex, updatedCard)];
    }
    return Ok(newSections);
  }

  /** Two boards have the same sections with the same number of cards each. */
  predicate SameShape(a: seq<Section>, b: seq<Section>) {
    |a| == |b| &&
    forall i :: 0 <= i < |a| ==>
      a[i].id == b[i].id && a[i].sectionIndex == b[i].sectionIndex && |a[i].cards| == |b[i].cards|
  }

  /** syncRelatedCards throws exactly when the edited cell has a mirror whose section
      is missing; otherwise it keeps the board's shape and changes only the mirror cell,
      which takes the edited card's content and keeps its own id. */
  lemma SyncRelatedEffect(sections: seq<Section>, s: int, c: int, u: Card, cs: int, cc: int)
    ensures SyncRelated(sections, s, c, u, cs, cc).Thrown? <==>
      MirrorOf(s, c, cs, cc).Some? && !(0 <= MirrorOf(s, c, cs, cc).value.sectionIndex < |sections|)
    ensures SyncRelated(sections, s, c, u, cs, cc).Ok? ==>
      var r := SyncRelated(sections, s, c, u, cs, cc).value;
      SameShape(r, sections) &&
      forall i, j :: HasCell(sections, i, j) ==>
        r[i].cards[j] == if MirrorOf(s, c, cs, cc) == Some(LocalIndices(i, j))
                         then SyncCardContent(sections[i].cards[j], u)
                         else sections[i].cards[j]
  {
  }

  /** Whatever is edited, at most one card of the board changes, and no id. */
  lemma AtMostOneCardChanges(sections: seq<Section>, s: int, c: int, u: Card, cs: int, cc: int)
    requires SyncRelated(sections, s, c, u, cs, cc).Ok?
    ensures var r := SyncRelated(sections, s, c, u, cs, cc).value;
      forall i, j, i', j' ::
        (HasCell(sections, i, j) && HasCell(sections, i', j') &&
         r[i].cards[j] != sections[i].cards[j] && r[i'].cards[j'] != sections[i'].cards[j']) ==>
        i == i' && j == j'
    ensures var r := SyncRelated(sections, s, c, u, cs, cc).value;
      forall i, j :: HasCell(sections, i, j) ==> r[i].cards[j].id == sections[i].cards[j].id
  {
  }

  /** `sections` with the card at (s, c) replaced: the edit that precedes a sync. */
  function SetCard(sections: seq<Section>, s: int, c: int, card: Card): seq<Section>
    requires HasCell(sections, s, c)
  {
    sections[s := sections[s].(cards := sections[s].cards[c := card])]
  }

  // ---------------------------------------------------------------------------
  // The mirror invariant and the seeding of all mirrors.

  /** Every section `p` (p != cc) shows at its centre position what the centre section
      shows at position `p`. */
  predicate Mirrored(sections: seq<Section>, cs: int, cc: int) {
    forall p :: 0 <= p < |sections| && p != cc && HasCell(sections, p, cc) && HasCell(sections, cs, p) ==>
      SameContent(sections[p].cards[cc], sections[cs].cards[p])
  }

  /** An n×n board. */
  predicate Square(sections: seq<Section>) {
    forall i :: 0 <= i < |sections| ==> |sections[i].cards| == |sections|
  }

  /** Editing any cell of a mirrored square board and then syncing it leaves the board
      mirrored (the centre section sits at the centre position). */
  lemma EditKeepsMirrored(sections: seq<Section>, s: int, c: int, u: Card, m: int)
    requires Square(sections) && 0 <= m < |sections| && HasCell(sections, s, c)
    requires Mirrored(sections, m, m)
    ensures SyncRelated(SetCard(sections, s, c, u), s, c, u, m, m).Ok?
    ensures Mirrored(SyncRelated(SetCard(sections, s, c, u), s, c, u, m, m).value, m, m)
  {
  }

  /** Positions 0 .. n-1 other than `skip` all name existing sections of the board. */
  predicate NamesSections(n: int, skip: int, sections: seq<Section>) {
    n <= |sections| || (n == |sections| + 1 && skip == |sections|)
  }

  /** The centre section exists and every non-centre position of it names an existing
      section. */
  predicate CenterFits(sections: seq<Section>, cs: int, cc: int) {
    0 <= cs < |sections| && NamesSections(|sections[cs].cards|, cc, sections)
  }

  /** syncCenterToPeriphery's result, described section by section: section `i` takes
      the centre section's card `i` at its centre position. */
  function MirrorCenter(sections: seq<Section>, cs: int, cc: int): seq<Section>
    requires CenterFits(sections, cs, cc)
  {
    var center := sections[cs].cards;
    seq(|sections|, i requires 0 <= i < |sections| =>
      if i < |center| && i != cc then SyncSection(sections[i], cc, center[i]) else sections[i])
  }

  function SyncCenter(sections: seq<Section>, cs: int, cc: int): Result<seq<Section>> {
    if CenterFits(sections, cs, cc) then Ok(MirrorCenter(sections, cs, cc)) else Thrown(TypeError)
  }

  /** Copies the board, then walks the centre section's cards (as they were on entry),
      pushing each non-centre card onto the centre card of the section it names. */
  method SyncCenterToPeriphery(sections: seq<Section>, centerSectionIndex: int, centerCardIndex: int)
    returns (r: Result<seq<Section>>)
    ensures r == SyncCenter(sections, centerSectionIndex, centerCardIndex)
  {
    var newSections := sections;
    if !(0 <= centerSectionIndex < |newSections|) {
      return Thrown(TypeError);
    }
    var centerCards := newSections[centerSectionIndex].cards;
    var cardIndex := 0;
    while cardIndex < |centerCards|
      invariant 0 <= cardIndex <= |centerCards|
      invariant |newSections| == |sections|
      invariant NamesSections(cardIndex, centerCardIndex, sections)
      invariant forall i :: 0 <= i < |sections| ==>
        newSections[i] == if i < cardIndex && i != centerCardIndex
                          then SyncSection(sections[i], centerCardIndex, centerCards[i])
                          else sections[i]
    {
      if cardIndex != centerCardIndex {
        var targetSectionIndex, targetCardIndex := cardIndex, centerCardIndex;
        if targetSectionIndex >= |newSections| {
          return Thrown(TypeError);
        }
        newSections := newSections[targetSectionIndex :=
          SyncSection(newSections[targetSectionIndex], targetCardIndex, centerCards[cardIndex])];
      }
      cardIndex := cardIndex + 1;
    }
    assert CenterFits(sections, centerSectionIndex, centerCardIndex);
    assert newSections == MirrorCenter(sections, centerSectionIndex, centerCardIndex);
    return Ok(newSections);
  }

  /** Seeding changes only the centre cards of the sections the centre section names,
      each to the content of the centre section's card at that section's position; the
      shape and every id stay. */
  lemma MirrorCenterEffect(sections: seq<Section>, cs: int, cc: int)
    requires CenterFits(sections, cs, cc)
    ensures var r := MirrorCenter(sections, cs, cc);
      SameShape(r, sections) &&
      forall i, j :: HasCell(sections, i, j) ==>
        r[i].cards[j] == if j == cc && i != cc && i < |sections[cs].cards|
                         then SyncCardContent(sections[i].cards[j], sections[cs].cards[i])
                         else sections[i].cards[j]
  {
  }

  /** After seeding, the board is mirrored. */
  lemma MirrorCenterMirrors(sections: seq<Section>, cs: int, cc: int)
    requires CenterFits(sections, cs, cc)
    ensures Mirrored(MirrorCenter(sections, cs, cc), cs, cc)
  {
  }

  /** Seeding a seeded board changes nothing more. */
  lemma MirrorCenterIdempotent(sections: seq<Section>, cs: int, cc: int)
    requires CenterFits(sections, cs, cc)
    ensures CenterFits(MirrorCenter(sections, cs, cc), cs, cc)
    ensures MirrorCenter(MirrorCenter(sections, cs, cc), cs, cc) == MirrorCenter(sections, cs, cc)
  {
    var r := MirrorCenter(sections, cs, cc);
    MirrorCenterEffect(sections, cs, cc);
    assert CenterFits(r, cs, cc);
    var rr := MirrorCenter(r, cs, cc);
    MirrorCenterEffect(r, cs, cc);
    forall i | 0 <= i < |r|
      ensures rr[i] == r[i]
    {
      assert rr[i].cards == r[i].cards;
    }
  }

  /** The default 9×9 board is not mirrored as built (its surrounding centre cards carry
      the core-goal title), and one seeding makes it so. */
  lemma DefaultBoardNeedsSeeding(colors: Colors)
    ensures !Mirrored(GetInitialSections(9, 9, 4, 4, colors), 4, 4)
    ensures CenterFits(GetInitialSections(9, 9, 4, 4, colors), 4, 4)
    ensures Mirrored(MirrorCenter(GetInitialSections(9, 9, 4, 4, colors), 4, 4), 4, 4)
  {
    var b := GetInitialSections(9, 9, 4, 4, colors);
    assert b[0].cards[4].title == CoreTitle;
    assert b[4].cards[0].title == RelatedTitle + NatToString(0);
    assert |CoreTitle| != |RelatedTitle + NatToString(0)|;
    assert !SameContent(b[0].cards[4], b[4].cards[0]);
    MirrorCenterMirrors(b, 4, 4);
  }
}
