# Christmas-party seating cards, modelled in Dafny

`generate_cards.py` prepares a party of `N = T * TC` guests (`T` tables of
`TC` seats each). It shuffles the participant ids `0 .. N - 1`. It gives every
participant a short random RNA "coding sequence" and shows on each card the
protein translated from the previous card's coding sequence. It seats the
participants at random tables, redrawing whenever a drawn table is full. Last,
it writes a master list naming each participant's two ring neighbours, and
lays the cards out twelve to a printing template.

This project models those computations and proves what they guarantee:

- `coding_sequence.dfy` (module `CodingSequence`) models
  `generate_coding_sequence`. The start codon `AUG` is followed by six codons
  drawn base by base, and a codon that reads as a stop codon is drawn again.
  `AcceptedCodons` is the reference definition of the retry loop. The method
  `GenerateCodingSequence`, with its inner loop `DrawCodon`, is proved to
  return exactly what that definition yields. Every result is 21 bases long,
  starts with `AUG`, uses only `A`, `U`, `C` and `G`, and has no stop codon
  after the start.
- `seating.dfy` (module `Seating`) models the table-assignment loop of `main`.
  A `SeatingState` value holds the rosters and the list of recorded table ids.
  - `AssignTables` is the outer loop and `DrawTable` the retry loop.
  - `Kept` is the reference definition of which draws are accepted.
  - `Seat` is an accepted draw: it appends to one roster and to the table ids,
    and changes nothing else.
  - It is proved that no roster ever holds more than `TC`, that some table has
    room while seats remain, and that the finished seating is a partition. In
    that partition every table holds exactly `TC` people, the rosters are
    disjoint, and each participant sits at the table recorded for them.
- `outputs.dfy` (module `Outputs`) models the index arithmetic of the
  outputs:
  - the master-list rows with the partners `ids[(i - 1) % N]` and
    `ids[(i + 1) % N]`;
  - the protein list `[translate(codings[i - 1]) for i in range(N)]`;
  - the chunking of the shuffled ids into templates of twelve;
  - the column `i % 3` and row `i // 3` of a card on its template, and the
    cutting guides.
- `seqs.dfy` and `wrappers.dfy` hold the shared `Flatten` on sequences and an
  `Option` type.

The random number generator is an input. `DrawCodon` and
`GenerateCodingSequence` take the successive values of `randint(0, 3)` as a
sequence. `DrawTable` and `AssignTables` take the successive values of
`randint(0, T - 1)`. When the sequence ends before the loop accepts enough
draws, the result is `None`. The source's loops retry forever, and they end
only with probability one.

The code seats everybody once and retries without bound. The "partners" are
the ring neighbours of the master list.

## Model

| member | source | states |
|---|---|---|
| CodingSequence.IsStopCodon | generate_cards.py:48 | the rejection test, base by base: three bases, `U` first, then `AA`, `AG` or `GA`; what it accepts is stated by `StopCodonsListed` |
| CodingSequence.StopCodonsListed | generate_cards.py:48 | a codon is rejected exactly when it is UAA, UAG or UGA, the stop codons of the standard genetic code |
| CodingSequence.CodonOf | generate_cards.py:46 | three draws spell a codon of three bases of `AUCG`, base `k` being `base[draw k]` |
| CodingSequence.TripleAt | generate_cards.py:46 | every triple of draws spells a codon over `AUCG` |
| CodingSequence.AcceptedCodons | generate_cards.py:44-49 | the reference definition of the retry loop over the first `n` triples: the codons they spell, in order, less the stop codons; at most one codon per triple |
| CodingSequence.AcceptedCodonsValid | generate_cards.py:45-49 | every codon the retry loop accepts is over `AUCG` and is not a stop codon |
| CodingSequence.AcceptedCodonsGrow | generate_cards.py:44-50 | drawing more triples only appends to the codons accepted so far |
| CodingSequence.FlattenCodons | generate_cards.py:50 | appending codons one after another gives three bases per codon, every codon can be read back in frame, and every base is in `AUCG` |
| CodingSequence.CodingSequenceFrom | generate_cards.py:42-51 | the reference definition of the generator: the start codon followed by the first six accepted codons, or `None` when fewer are accepted; a result always begins with `AUG` |
| CodingSequence.CodingSequenceIsWellFormed | generate_cards.py:42-51 | every generated sequence has length 21, begins with `AUG`, uses only `AUCG`, and has no stop codon among codons 1 to 6 |
| CodingSequence.BaseIndex | generate_cards.py:82 | `base.index(b)` of a generated base is below 4, so it is a valid index into the four-colour palette, and it names that base |
| CodingSequence.StopSkippedStartKept | generate_cards.py:45-49 | only stops are rejected: a leading UAA triple is skipped, and an AUG triple after it is kept, so the sequence starts `AUGAUG` |
| CodingSequence.DrawCodon | generate_cards.py:45-49 | the retry loop returns the next accepted codon, which is the codon of the last triple it read, and every triple it read before that was a stop codon; `None` when no codon is accepted before the draws end |
| CodingSequence.GenerateCodingSequence | generate_cards.py:42-51 | the generator returns exactly the start codon followed by the first six accepted codons, which is a well-formed coding sequence, or `None` when the draws end first |
| Seating.Kept | generate_cards.py:186-192 | the reference definition of the retry loop over the first `n` draws: a draw is kept when its table then holds fewer than `TC`; at most one table is kept per draw |
| Seating.KeptWithinCapacity | generate_cards.py:189 | no table is ever accepted more than `TC` times |
| Seating.RosterOf | generate_cards.py:190 | a roster is as long as the number of times its table was recorded |
| Seating.RosterMembership | generate_cards.py:186-192 | a participant is on the roster of table `t` if and only if `t` was recorded for them |
| Seating.RosterOfAgrees | generate_cards.py:191 | a roster depends only on the table ids recorded for the participants seated so far |
| Seating.Seat | generate_cards.py:190-191 | an accepted draw appends the participant to exactly one roster and the table id to `table_ids`, and leaves every other roster unchanged |
| Seating.SeatRespectsCapacity | generate_cards.py:189-190 | appending to a table with room keeps every roster within `TC` |
| Seating.SeatKeepsSeated | generate_cards.py:186-192 | seating the next participant in shuffled order extends the rosters and the table ids by exactly that participant |
| Seating.RoomWhileUnseated | generate_cards.py:186-189 | with `N = T * TC`, while fewer than `N` participants are seated some table has room, so the retry loop can always accept a draw |
| Seating.TablesFull | generate_cards.py:183-192 | once `N = T * TC` participants are seated, every table holds exactly `TC` |
| Seating.KeptSaturated | generate_cards.py:187-189 | once every table is full, every further draw is rejected |
| Seating.SeatedAtRecordedTable | generate_cards.py:190-191 | `participant_ids[i]` is on the roster of `table_ids[i]` |
| Seating.RostersWithinRange | generate_cards.py:177-192 | only the shuffled participants `0 .. N - 1` appear on the rosters |
| Seating.RostersDisjoint | generate_cards.py:186-192 | no participant is on two rosters |
| Seating.SeatingPartition | generate_cards.py:183-192 | the final rosters partition the participants, every table holds exactly `TC`, and every participant is at the table recorded for them |
| Seating.SeatedSizesRecorded | generate_cards.py:189-191 | the length of every roster is the number of times its table was recorded |
| Seating.DrawTable | generate_cards.py:187-192 | the retry loop returns the first drawn table with room, and stops there: it is the last draw read, and every draw read before it named a full table, so it added nothing to the kept draws; `None` when the draws end first |
| Seating.AssignTables | generate_cards.py:183-192 | the loop succeeds exactly when the accepted draws seat all `N` participants; its `table_ids` are those draws, it keeps every roster within `TC` at every step, and the final seating is a partition with every table full |
| Outputs.MasterList | generate_cards.py:92-94 | the master list has one line per participant |
| Outputs.RingNeighbours | generate_cards.py:94 | `(i - 1) % N` and `(i + 1) % N` are the previous and next positions on a ring of `N` |
| Outputs.PartnersFormRing | generate_cards.py:92-94 | partnership is mutual: the second partner of line `i` is the participant of line `(i + 1) % N`, whose first partner is the participant of line `i` |
| Outputs.MasterRowIdsDistinct | generate_cards.py:92-94 | the ids on a line are in `1 .. N` and the table in `1 .. T`; with three or more participants, a line names three different people |
| Outputs.PyIndex | generate_cards.py:181 | a negative Python index still names an element of the list |
| Outputs.Proteins | generate_cards.py:181 | the list comprehension yields one protein per coding sequence; which translation each card shows is stated by `ProteinAt` and `ProteinsRotateRight` |
| Outputs.ProteinAt | generate_cards.py:181 | the protein on card `i` is translated from the coding sequence of card `i - 1`, and the first card's from the last card's |
| Outputs.Translated | generate_cards.py:181 | the reference list of translations, one per card in card order |
| Outputs.ProteinsRotateRight | generate_cards.py:181 | the protein list is the list of translations rotated right by one, so card `(i + 1) % N` shows the protein of card `i` |
| Outputs.ProteinsArePermutation | generate_cards.py:181 | the cards' proteins are the translations rearranged (equal as multisets) |
| Outputs.ProteinFromFirstPartner | generate_cards.py:181 | a card's protein is translated from the coding sequence on the card of its first partner in the master list |
| Outputs.PySlice | generate_cards.py:142 | a Python slice clamps both bounds to the list length |
| Outputs.TemplateCount | generate_cards.py:141 | `len(range(0, N, 12))` is `ceil(N / 12)`: the fewest templates of 12 that hold `N` cards |
| Outputs.Templates | generate_cards.py:141-142 | there is one template per offset of `range(0, N, 12)`, which is `ceil(N / 12)` templates |
| Outputs.TemplateOffsetInRange | generate_cards.py:141 | every offset of `range(0, N, 12)` is below `N` |
| Outputs.TemplateSizes | generate_cards.py:141-142 | every template holds 1 to 12 cards, and every template but the last holds exactly 12 |
| Outputs.TemplatesPrefix | generate_cards.py:141-142 | the first `k` templates hold the first `12k` cards, in order |
| Outputs.TemplatesCoverAll | generate_cards.py:141-142 | the templates, taken in order, hold every card exactly once, in shuffled order |
| Outputs.TemplateSlot | generate_cards.py:141-142 | card `k` is in slot `k % 12` of template `k // 12` |
| Outputs.GridCell | generate_cards.py:116-117 | slot `i` is in column `i % 3` (below 3) and row `i // 3`, with `3 * row + column == i` |
| Outputs.GridCellsOnTemplate | generate_cards.py:116-117 | the twelve slots of a template occupy four rows, and distinct slots occupy distinct cells |
| Outputs.CardOrigin | generate_cards.py:116-117 | a card's corner is at `0.25 + 3.5 * column` and `0.25 + 2 * row` inches |
| Outputs.CardsTileThePage | generate_cards.py:111-117 | the twelve 3.5 by 2 inch cards of a template lie on the 11 by 8.5 inch page and do not overlap |
| Outputs.VerticalGuides | generate_cards.py:121-124 | the source draws four vertical cutting guides |
| Outputs.VerticalGuidesFrameEveryCard | generate_cards.py:121-124 | both vertical edges of every card lie on a vertical guide |
| Outputs.HorizontalGuides | generate_cards.py:126-130 | there is one horizontal guide per step of the loop |
| Outputs.HorizontalGuidesAsWrittenMissBottomRow | generate_cards.py:126-130 | as written, with three horizontal guides, the bottom row of a full template has a guide along neither its top edge nor its bottom edge |
| Outputs.HorizontalGuidesFrameEveryCard | generate_cards.py:126-130 | with five horizontal guides, both horizontal edges of every card lie on a guide |

## Left out

- The pseudo-random generator is not modelled: `random.seed`, `randint` and the Mersenne Twister. Draws are inputs, and the shuffle is any permutation of `0 .. N - 1`.
- The generator is one stream shared by the shuffle, the coding sequences and the seating. The model gives each loop its own sequence of draws.
- Termination of the two `while True` retry loops is not modelled. They end only with probability one. In the model, running out of draws gives `None`.
- Protein translation (`Bio.Seq.translate`) is a foreign library. Only its stop-codon verdict is modelled, as `IsStopCodon`. The full translation is a function parameter of `Proteins`.
- The SVG is not modelled: card drawing, text, colours, and the widths computed in floating point. File and directory handling, `rsvg-convert`, the printed TSV formatting and `argparse` are left out too. Card positions are kept as exact hundredths of an inch.
- `generate_mishaps([52])` is not modelled. It reprints one fixed card through the same template code, so it has no logic of its own.
- Seating.AssignTables: the rosters and `table_ids`, which the source grows in place, are the fields of a `SeatingState` value that the loop reassigns. The source's rosters are distinct lists with no aliasing, so nothing is lost.
- Negative `--tables` and `--table-capacity` are not modelled, because the counts are natural numbers. With both negative, `N = T * TC` is positive and the source fails in `randint(0, T - 1)`. With exactly one negative, `N` is negative and the source seats nobody. A zero count is modelled: `N = 0`, and the model seats nobody, as the source does.
- Outputs.HorizontalGuides: the model reasons about guide positions, not about the length of the lines drawn.

## Findings

| source | as written | input that shows it | evidently intended | confidence | as-written member | corrected member |
|---|---|---|---|---|---|---|
| generate_cards.py:126 | the horizontal guides come from `range(3)`, at 0.25, 2.25 and 4.25 inches | a full template of 12 cards: the bottom row spans 6.25 to 8.25 inches, and neither edge has a guide | `range(5)`, one guide above each of the four rows and one below the last, matching the four vertical guides that run down to 8.25 inches | medium, not executed | Outputs.HorizontalGuidesAsWrittenMissBottomRow | Outputs.HorizontalGuidesFrameEveryCard |
