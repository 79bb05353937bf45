/**
 * The index arithmetic that turns the seating into printed matter: the rows
 * of the master list with each participant's two ring neighbours, the
 * protein shown on each card (translated from the previous card's coding
 * sequence), the split of the cards into printing templates of twelve, and
 * the place of a card on its template.
 *
 * Python semantics are written out: `(i - 1) % N` with a positive `N` is
 * Dafny's `%` on `int`, a negative list index counts from the end, and a
 * slice clamps both bounds to the length of the list.
 */
module Outputs {
  import opened Seqs
  import opened Seating

  /** One line of the master list, every id shifted to count from 1. */
  datatype MasterRow = MasterRow(participant: nat, table: nat, partner1: nat, partner2: nat)

  /**
   * The master list: line `i` names participant `ids[i]`, the table recorded
   * for them, and the participants just before and just after them in the
   * shuffled order, wrapping around at both ends.
   */
  function MasterList(ids: seq<nat>, tableIds: seq<nat>): (rows: seq<MasterRow>)
    requires |tableIds| == |ids|
    ensures |rows| == |ids|
  {
    var n := |ids|;
    seq(n, i requires 0 <= i < n =>
      MasterRow(ids[i] + 1, tableIds[i] + 1, ids[(i - 1) % n] + 1, ids[(i + 1) % n] + 1))
  }

  /** Python's `(i - 1) % n` and `(i + 1) % n` on a position `i` of a ring of `n`. */
  lemma RingNeighbours(i: int, n: int)
    requires 0 <= i < n
    ensures (i - 1) % n == if i == 0 then n - 1 else i - 1
    ensures (i + 1) % n == if i == n - 1 then 0 else i + 1
  {
  }

  /**
   * Partnership is mutual and runs around a ring: the second partner of line
   * `i` is the participant of the next line (the first line after the last),
   * whose first partner is in turn the participant of line `i`.
   */
  lemma PartnersFormRing(ids: seq<nat>, tableIds: seq<nat>, i: nat)
    requires |tableIds| == |ids| && i < |ids|
    ensures MasterList(ids, tableIds)[i].partner2 == MasterList(ids, tableIds)[(i + 1) % |ids|].participant
    ensures MasterList(ids, tableIds)[(i + 1) % |ids|].partner1 == MasterList(ids, tableIds)[i].participant
  {
    var n := |ids|;
    var rows := MasterList(ids, tableIds);
    RingNeighbours(i, n);
    var j := (i + 1) % n;
    RingNeighbours(j, n);
    assert rows[i].partner2 == ids[j] + 1;
    assert rows[j].partner1 == ids[(j - 1) % n] + 1;
  }

  /**
   * Among three or more participants, a line names three different people,
   * and every id on it (participant and partners) lies in `1 .. N`, as does
   * the table, in `1 .. T`, when the recorded tables are below `T`.
   */
  lemma MasterRowIdsDistinct(ids: seq<nat>, tableIds: seq<nat>, tableCount: nat, i: nat)
    requires IsPermutationOfRange(ids, |ids|) && |tableIds| == |ids| && i < |ids|
    requires forall k :: 0 <= k < |tableIds| ==> tableIds[k] < tableCount
    ensures 1 <= MasterList(ids, tableIds)[i].participant <= |ids|
    ensures 1 <= MasterList(ids, tableIds)[i].partner1 <= |ids|
    ensures 1 <= MasterList(ids, tableIds)[i].partner2 <= |ids|
    ensures 1 <= MasterList(ids, tableIds)[i].table <= tableCount
    ensures |ids| >= 3 ==> MasterList(ids, tableIds)[i].partner1 != MasterList(ids, tableIds)[i].participant
    ensures |ids| >= 3 ==> MasterList(ids, tableIds)[i].partner2 != MasterList(ids, tableIds)[i].participant
    ensures |ids| >= 3 ==> MasterList(ids, tableIds)[i].partner1 != MasterList(ids, tableIds)[i].partner2
  {
    var n := |ids|;
    var rows := MasterList(ids, tableIds);
    RingNeighbours(i, n);
    var prev, next := (i - 1) % n, (i + 1) % n;
    assert rows[i] == MasterRow(ids[i] + 1, tableIds[i] + 1, ids[prev] + 1, ids[next] + 1);
    assert ids[i] in ids && ids[prev] in ids && ids[next] in ids;
    if n >= 3 {
      assert ids[i] != ids[prev] && ids[i] != ids[next] && ids[prev] != ids[next];
    }
  }

  /**
   * `xs[j]` in Python for `-len(xs) <= j < len(xs)`: a negative index counts
   * from the end.
   */
  function PyIndex<X>(xs: seq<X>, j: int): (x: X)
    requires -|xs| <= j < |xs|
    ensures x in xs
  {
    if j < 0 then xs[|xs| + j] else xs[j]
  }

  /**
   * The protein sequences, `[translate(codings[i - 1]) for i in range(N)]`:
   * the protein on card `i` is translated from the coding sequence of card
   * `i - 1`, and the first card's from the last card's. The translation
   * itself is a parameter.
   */
  function Proteins<X, Y>(codings: seq<X>, translate: X -> Y): (proteins: seq<Y>)
    ensures |proteins| == |codings|
  {
    seq(|codings|, i requires 0 <= i < |codings| => translate(PyIndex(codings, i - 1)))
  }

  /** The protein on card `i` is that of card `i - 1`, or of the last card for the first. */
  lemma ProteinAt<X, Y>(codings: seq<X>, translate: X -> Y, i: nat)
    requires i < |codings|
    ensures Proteins(codings, translate)[i] == translate(codings[if i == 0 then |codings| - 1 else i - 1])
  {
    assert Proteins(codings, translate)[i] == translate(PyIndex(codings, i - 1));
  }

  /** The translation of every coding sequence, card by card. */
  function Translated<X, Y>(codings: seq<X>, translate: X -> Y): (proteins: seq<Y>)
    ensures |proteins| == |codings|
    ensures forall i :: 0 <= i < |codings| ==> proteins[i] == translate(codings[i])
  {
    if codings == [] then [] else [translate(codings[0])] + Translated(codings[1..], translate)
  }

  /**
   * Card `(i + 1) % N` shows the protein of card `i`'s coding sequence: the
   * protein list is the translated coding sequences rotated right by one.
   */
  lemma ProteinsRotateRight<X, Y>(codings: seq<X>, translate: X -> Y)
    requires |codings| > 0
    ensures Proteins(codings, translate)
         == [translate(codings[|codings| - 1])] + Translated(codings, translate)[..|codings| - 1]
    ensures forall i :: 0 <= i < |codings| ==> Proteins(codings, translate)[(i + 1) % |codings|] == translate(codings[i])
  {
    var n := |codings|;
    var proteins := Proteins(codings, translate);
    var rotated := [translate(codings[n - 1])] + Translated(codings, translate)[..n - 1];
    assert |proteins| == |rotated|;
    forall i | 0 <= i < n
      ensures proteins[i] == rotated[i]
    {
      ProteinAt(codings, translate, i);
      if i > 0 {
        assert rotated[i] == Translated(codings, translate)[i - 1];
      }
    }
    forall i | 0 <= i < n
      ensures proteins[(i + 1) % n] == translate(codings[i])
    {
      RingNeighbours(i, n);
      ProteinAt(codings, translate, (i + 1) % n);
    }
  }

  /** The cards' proteins are the translations of the coding sequences rearranged: equal as multisets. */
  lemma ProteinsArePermutation<X, Y>(codings: seq<X>, translate: X -> Y)
    ensures multiset(Proteins(codings, translate)) == multiset(Translated(codings, translate))
  {
    var n := |codings|;
    if n > 0 {
      ProteinsRotateRight(codings, translate);
      var all := Translated(codings, translate);
      var init, last := all[..n - 1], all[n - 1];
      assert all == init + [last];
      RotationKeepsMultiset(init, last);
    }
  }

  lemma RotationKeepsMultiset<X>(init: seq<X>, last: X)
    ensures multiset([last] + init) == multiset(init + [last])
  {
  }

  /**
   * A card's protein comes from the coding sequence on the card of its first
   * partner in the master list: the protein of line `i` is the translation of
   * the coding sequence at the position `j` of the participant named as
   * `partner1`.
   */
  lemma ProteinFromFirstPartner<X, Y>(ids: seq<nat>, tableIds: seq<nat>, codings: seq<X>, translate: X -> Y, i: nat)
    requires |tableIds| == |ids| && |codings| == |ids| && i < |ids|
    ensures exists j :: (0 <= j < |ids|
      && ids[j] + 1 == MasterList(ids, tableIds)[i].partner1
      && Proteins(codings, translate)[i] == translate(codings[j]))
  {
    var n := |ids|;
    RingNeighbours(i, n);
    var j := (i - 1) % n;
    ProteinAt(codings, translate, i);
    assert ids[j] + 1 == MasterList(ids, tableIds)[i].partner1;
  }

  /** Cards per printing template: four rows of three. */
  const CardsPerTemplate: nat := 4 * 3

  function Min(a: int, b: int): int
  {
    if a <= b then a else b
  }

  /** `xs[lo:hi]` in Python for `0 <= lo <= hi`: both bounds are clamped to the length. */
  function PySlice<X>(xs: seq<X>, lo: nat, hi: nat): (s: seq<X>)
    requires lo <= hi
    ensures |s| == Min(hi, |xs|) - Min(lo, |xs|)
  {
    xs[Min(lo, |xs|) .. Min(hi, |xs|)]
  }

  /** `len(range(0, n, CardsPerTemplate))`. */
  function TemplateCount(n: nat): (count: nat)
    ensures n <= count * CardsPerTemplate
    ensures count == 0 || (count - 1) * CardsPerTemplate < n
  {
    (n + CardsPerTemplate - 1) / CardsPerTemplate
  }

  /**
   * The participants on each printing template: one template for every
   * offset of `range(0, N, 12)`, holding the slice of the shuffled ids that
   * starts there.
   */
  function Templates<X>(ids: seq<X>): (pages: seq<seq<X>>)
    ensures |pages| == TemplateCount(|ids|)
  {
    seq(TemplateCount(|ids|), k requires 0 <= k =>
      PySlice(ids, k * CardsPerTemplate, k * CardsPerTemplate + CardsPerTemplate))
  }

  /** The offsets of `range(0, N, 12)` stay below `N`, so no template slice is clamped at its start. */
  lemma TemplateOffsetInRange(n: nat, k: nat)
    requires k < TemplateCount(n)
    ensures k * CardsPerTemplate < n
  {
  }

  /** Every template holds between 1 and 12 cards, and every template but the last exactly 12. */
  lemma TemplateSizes<X>(ids: seq<X>)
    ensures forall k :: 0 <= k < |Templates(ids)| ==> 1 <= |Templates(ids)[k]| <= CardsPerTemplate
    ensures forall k :: 0 <= k < |Templates(ids)| - 1 ==> |Templates(ids)[k]| == CardsPerTemplate
  {
  }

  /** The first `k` templates together hold the first `12 * k` cards (or all of them), in order. */
  lemma {:induction false} TemplatesPrefix<X>(ids: seq<X>, k: nat)
    requires k <= TemplateCount(|ids|)
    ensures Flatten(Templates(ids)[..k]) == ids[..Min(k * CardsPerTemplate, |ids|)]
  {
    var pages := Templates(ids);
    if k > 0 {
      TemplatesPrefix(ids, k - 1);
      TemplateOffsetInRange(|ids|, k - 1);
      var lo := (k - 1) * CardsPerTemplate;
      var hi := Min(k * CardsPerTemplate, |ids|);
      assert lo < hi && pages[k - 1] == ids[lo..hi];
      assert pages[..k] == pages[..k - 1] + [pages[k - 1]];
      FlattenSnoc(pages[..k - 1], pages[k - 1]);
      assert ids[..hi] == ids[..lo] + ids[lo..hi];
    }
  }

  /** Printed one after the other, the templates hold every card exactly once, in shuffled order. */
  lemma TemplatesCoverAll<X>(ids: seq<X>)
    ensures Flatten(Templates(ids)) == ids
  {
    var pages := Templates(ids);
    TemplatesPrefix(ids, |pages|);
    assert pages[..|pages|] == pages;
    assert TemplateCount(|ids|) * CardsPerTemplate >= |ids|;
  }

  /** Card `k` of the shuffled order is card `k % 12` of template `k / 12`. */
  lemma TemplateSlot<X>(ids: seq<X>, k: nat)
    requires k < |ids|
    ensures k / CardsPerTemplate < |Templates(ids)|
    ensures k % CardsPerTemplate < |Templates(ids)[k / CardsPerTemplate]|
    ensures Templates(ids)[k / CardsPerTemplate][k % CardsPerTemplate] == ids[k]
  {
    var page, slot := k / CardsPerTemplate, k % CardsPerTemplate;
    assert page * CardsPerTemplate + slot == k;
    var count := TemplateCount(|ids|);
    assert page < count;
    assert Templates(ids)[page] == PySlice(ids, page * CardsPerTemplate, page * CardsPerTemplate + CardsPerTemplate);
  }

  /** The place of a card on a template: column `i % 3` and row `i // 3`. */
  datatype Cell = Cell(column: nat, row: nat)

  function GridCell(slot: nat): (c: Cell)
    ensures c.column < 3
    ensures c.row * 3 + c.column == slot
  {
    Cell(slot % 3, slot / 3)
  }

  /** Distinct slots of a template get distinct cells, and the twelve slots fill four rows of three. */
  lemma GridCellsOnTemplate(slot: nat, other: nat)
    requires slot < CardsPerTemplate
    ensures GridCell(slot).row < 4
    ensures slot != other ==> GridCell(slot) != GridCell(other)
  {
  }

  /**
   * Where the card in slot `i` is placed, in hundredths of an inch from the
   * page corner: `x = i % 3 * 3.5 + 0.25` and `y = i // 3 * 2 + 0.25` inches.
   * Every value is a multiple of 0.25 inch, so the floating-point arithmetic
   * of the source is exact here.
   */
  function CardOrigin(slot: nat): (xy: (nat, nat))
    ensures xy.0 == 350 * GridCell(slot).column + 25
    ensures xy.1 == 200 * GridCell(slot).row + 25
  {
    (slot % 3 * 350 + 25, slot / 3 * 200 + 25)
  }

  /** Cards are 3.5 by 2 inches; the page is 11 by 8.5 inches. */
  const CardWidth: nat := 350
  const CardHeight: nat := 200
  const PageWidth: nat := 1100
  const PageHeight: nat := 850

  /**
   * The twelve cards of a template lie on the page and do not overlap: two
   * different slots are at least a card's width apart horizontally or a
   * card's height apart vertically.
   */
  lemma CardsTileThePage(slot: nat, other: nat)
    requires slot < CardsPerTemplate && other < CardsPerTemplate
    ensures CardOrigin(slot).0 + CardWidth <= PageWidth && CardOrigin(slot).1 + CardHeight <= PageHeight
    ensures slot != other ==>
      || CardOrigin(slot).0 + CardWidth <= CardOrigin(other).0
      || CardOrigin(other).0 + CardWidth <= CardOrigin(slot).0
      || CardOrigin(slot).1 + CardHeight <= CardOrigin(other).1
      || CardOrigin(other).1 + CardHeight <= CardOrigin(slot).1
  {
  }

  /**
   * The vertical cutting guides of a template, as `x` positions in
   * hundredths of an inch: `0.25 + i * 3.5` inches for `i` in `range(4)`.
   */
  function VerticalGuides(): (xs: seq<nat>)
    ensures |xs| == 4
  {
    seq(4, i requires 0 <= i < 4 => 25 + i * CardWidth)
  }

  /**
   * The horizontal cutting guides, as `y` positions in hundredths of an
   * inch: `0.25 + i * 2` inches for `i` in `range(count)`.
   */
  function HorizontalGuides(count: nat): (ys: seq<nat>)
    ensures |ys| == count
  {
    seq(count, i requires 0 <= i < count => 25 + i * CardHeight)
  }

  /** The number of horizontal guides the source draws. */
  const HorizontalGuidesAsWritten: nat := 3

  /** One guide above each of the four rows and one below the last. */
  const HorizontalGuidesCorrected: nat := 5

  /** Both vertical edges of every card on a template lie on a vertical guide. */
  lemma VerticalGuidesFrameEveryCard(slot: nat)
    requires slot < CardsPerTemplate
    ensures CardOrigin(slot).0 in VerticalGuides()
    ensures CardOrigin(slot).0 + CardWidth in VerticalGuides()
  {
    var c := slot % 3;
    assert VerticalGuides()[c] == CardOrigin(slot).0;
    assert VerticalGuides()[c + 1] == CardOrigin(slot).0 + CardWidth;
  }

  /**
   * As written, with `range(3)` horizontal guides, the card in slot 9 (the
   * first of the bottom row of a full template) has no guide along either
   * its top edge (6.25 inches) or its bottom edge (8.25 inches).
   */
  lemma HorizontalGuidesAsWrittenMissBottomRow()
    ensures CardOrigin(9).1 !in HorizontalGuides(HorizontalGuidesAsWritten)
    ensures CardOrigin(9).1 + CardHeight !in HorizontalGuides(HorizontalGuidesAsWritten)
  {
  }

  /** With five horizontal guides, both horizontal edges of every card on a template lie on a guide. */
  lemma HorizontalGuidesFrameEveryCard(slot: nat)
    requires slot < CardsPerTemplate
    ensures CardOrigin(slot).1 in HorizontalGuides(HorizontalGuidesCorrected)
    ensures CardOrigin(slot).1 + CardHeight in HorizontalGuides(HorizontalGuidesCorrected)
  {
    var r := slot / 3;
    assert r < 4;
    assert HorizontalGuides(HorizontalGuidesCorrected)[r] == CardOrigin(slot).1;
    assert HorizontalGuides(HorizontalGuidesCorrected)[r + 1] == CardOrigin(slot).1 + CardHeight;
  }
}
