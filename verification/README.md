# drizzle-kanban core, modelled in Dafny

This project models the data layer of a kanban board application: the MySQL
tables declared through drizzle, the zod schemas that validate request
payloads, the tRPC procedures of the board and card routers, and the
background classifier of the board form's color picker.

- **Tables.** Each table is a sequence of rows in insertion order, held in a
  `Schema.Store`. `Schema.ValidStore` states the invariants the writes
  keep: unique primary keys; a unique (userId, boardId) pair in
  `recentlyViewed`, which the table declares as a second primary key; titles that fit their `varchar(256)` columns; and
  the one foreign key, from `lists.boardId` to `boards.id`.
- **Writes.** Writes are pure functions from a store to a `Result<Store>`.
  They reproduce what MySQL does:
  - a duplicate key fails with `DuplicateEntry`;
  - an over-long varchar fails with `DataTooLong` (strict mode);
  - an unknown parent fails with `ForeignKeyViolation`;
  - `ON UPDATE CURRENT_TIMESTAMP` refreshes `updated_at` only when a value
    actually changes.
- **Validators.** Request payloads are an untyped `Zod.Json` value, and each
  zod schema is a parser into a typed input or `None`. A missing member reads
  as `undefined`, unknown members are dropped, and `.default` fills only
  `undefined`. zod measures string length in UTF-16 code units (JavaScript's
  `length`), while a varchar counts characters.
- **Procedures.** Each procedure takes a validated input and the store.
  Queries return a result over the store. Mutations return an `Outcome` and
  the next store. Fresh ids and the current time are parameters.
- **Color picker.** `ColorPicker.DefaultTab` models the picker's sniffing of a
  background string, and `ColorPicker.Choose` models what a click on a swatch
  writes into the form.

Modules, in dependency order:

| module | file |
|---|---|
| `Wrappers` (`Option`) | wrappers.dfy |
| `Trpc` (error codes, `Result`, `Outcome`) | trpc.dfy |
| `Seqs` (where, findFirst, order by … desc limit) | seqs.dfy |
| `Strings` (`includes`, UTF-16 length, binary string order) | strings.dfy |
| `Zod` (payloads and combinators) | zod.dfy |
| `Schema` (rows, store, writes) | schema.dfy |
| `BoardValidation`, `CardValidation` | board_validation.dfy, card_validation.dfy |
| `BoardRouter`, `CardRouter` | board_router.dfy, card_router.dfy |
| `ColorPicker` | color_picker.dfy |

In these places the code departs from what its names and messages suggest;
the model follows the code:

- **`createBoard`: `background.type`.** The schema admits only `color` and
  `image`, not `gradient` (see Findings).
- **`all`: `nextCursor`.** The procedure never returns a `nextCursor` (see
  Findings).
- **`all` with a cursor.** A second `.where()` replaces the first, so with a
  cursor `all` lists boards of every owner whose id is at least the cursor.
- **Rejections use `BAD_REQUEST`.** A duplicate board title and a missing
  board on `edit` both fail with `BAD_REQUEST`, not with a conflict or
  not-found code.
- **Board title uniqueness.** It is checked only by `create`. `edit` can
  produce two boards with the same title.
- **`cards.listId`.** It has no foreign key, so a card can be created in a
  list that does not exist. `recentlyViewed` has no foreign keys either.
- **Card position.** A new card takes the last position in ascending order
  plus one, which is 1 for an empty list. This is proved equal to the largest
  position plus one. Positions are never checked for sign or collisions.
- **`createCard` title.** It accepts any title, the empty one included.
- **`updateCard`.** It changes only `listId`. The schema drops
  `card.description`, and drizzle skips the resulting `undefined` in `.set`.
- **`get` on cards.** An unknown id returns an empty view, not an error.

## Model

| member | source | states |
|---|---|---|
| Seqs.FindFirst | src/server/api/routers/board.ts:16-17 | `findFirst` returns the first row meeting the condition, and none exactly when no row does |
| Seqs.Filter | src/server/api/routers/board.ts:62 | a `where` keeps exactly the rows meeting the condition, each at most as often as it occurs |
| Seqs.FilterAppend | src/server/api/routers/board.ts:62 | inserting a row extends a filtered view by that row exactly when it matches |
| Seqs.Insert | src/server/api/routers/board.ts:63 | inserting into a newest-first sequence keeps it ordered and adds exactly that row to the multiset |
| Seqs.SortDesc | src/server/api/routers/board.ts:63 | `order by … desc` yields a permutation of the rows in non-increasing key order |
| Seqs.Top | src/server/api/routers/board.ts:63-64 | `order by … desc limit k` returns min(k, n) of the rows in order, each at most as often as it occurs (all of them when n ≤ k), and no row left out, counted with repeats, outranks a returned one |
| Seqs.TopOutrankedFewer | src/server/api/routers/board.ts:63-64 | a row that makes the top `k` is strictly outranked by fewer than `k` rows of the table, counted with repeats |
| Strings.Includes | components/ui/color-picker.tsx:63 | `includes` is true exactly when the substring occurs at some offset |
| Strings.IncludesInfix | components/ui/color-picker.tsx:63 | a string built around the substring includes it |
| Strings.MissingCharExcludes | components/ui/color-picker.tsx:67 | a string lacking any character of the substring does not include it |
| Strings.AtLeastReflexive | src/server/api/routers/board.ts:68 | `gte(boards.id, cursor)` admits the board whose id is the cursor itself |
| Strings.AtLeastTotal | src/server/api/routers/board.ts:68 | under the binary string order any two ids are comparable |
| Strings.AtLeastAntisymmetric | src/server/api/routers/board.ts:68 | two ids each at least the other are the same id |
| Strings.AtLeastTransitive | src/server/api/routers/board.ts:68 | the binary string order behind `gte` is transitive |
| Strings.Utf16Length | src/server/schema/board.shema.ts:18 | zod's length lies between the character count and twice it, and equals the character count exactly when no character lies beyond U+FFFF |
| Zod.Member | src/server/schema/board.shema.ts:3-5 | an object member is present exactly when the object has that key, and it is that key's value |
| Zod.ZString | src/server/schema/board.shema.ts:4 | `z.string()` accepts exactly a present string and returns it |
| Zod.ZNullishString | src/server/schema/board.shema.ts:10 | `.nullish()` accepts absent, `null` or a string, and yields a value only for a string |
| Zod.ZNumber | src/server/schema/board.shema.ts:11 | `z.number()` accepts exactly a present number |
| Zod.ZBooleanDefault | src/server/schema/board.shema.ts:24 | `.default(false)` fills only an absent member, and `null` is rejected |
| Zod.ZEnum | src/server/schema/board.shema.ts:20 | `z.enum` accepts exactly a string among the listed values |
| BoardValidation.ParseGetBoardById | src/server/schema/board.shema.ts:3-5 | `getBoardById` accepts exactly a payload whose `id` is a string |
| BoardValidation.GetBoardByIdRoundTrip | src/server/schema/board.shema.ts:3-5 | every typed `getBoardById` input survives encoding and validation |
| BoardValidation.ParseGetAllBoards | src/server/schema/board.shema.ts:9-13 | an accepted page request has a limit in 1..100, its members are the ones sent, and a missing `userId` is rejected |
| BoardValidation.GetAllBoardsRoundTrip | src/server/schema/board.shema.ts:9-13 | an encoded page request is accepted exactly when its limit lies in 1..100, and then comes back unchanged |
| BoardValidation.NullCursorIsNoCursor | src/server/schema/board.shema.ts:10 | an explicit `null` cursor validates like an absent one |
| BoardValidation.ParseCreateBoardWith | src/server/schema/board.shema.ts:17-26 | an accepted board form has a 2..54 code-unit title and an admitted background type, and echoes the submitted members; `public` defaults to false |
| BoardValidation.ParseCreateBoard | src/server/schema/board.shema.ts:17-26 | the declared schema admits only `color` and `image` backgrounds |
| BoardValidation.CreateBoardRoundTrip | src/server/schema/board.shema.ts:17-26 | an encoded board form is accepted exactly when its title length and background type are allowed, and comes back unchanged |
| BoardValidation.PublicDefaultsToFalse | src/server/schema/board.shema.ts:24 | a form without `public` is read as a private board |
| BoardValidation.GradientRejected | src/server/schema/board.shema.ts:20 | no payload whose background type is `gradient` passes the declared schema |
| BoardValidation.ParseCreateBoardFixed | src/server/schema/board.shema.ts:19-22 | the widened schema accepts everything the declared one does, unchanged, and only titles in range with a kind the picker writes |
| BoardValidation.CreateBoardFixedRoundTrip | src/server/schema/board.shema.ts:19-22 | the widened schema reads back exactly the forms whose title is in range and whose type is `color`, `gradient` or `image` |
| BoardValidation.FixedAcceptsGradient | src/server/schema/board.shema.ts:20 | a `gradient` form with a valid title, rejected by the declared schema, is accepted unchanged by the widened one |
| BoardValidation.AcceptedTitleFitsColumn | src/server/db/schema.ts:50 | a title the schema accepts always fits the 256-character title column |
| CardValidation.ParseCreateCard | src/server/schema/card.schema.ts:3-7 | `createCard` accepts exactly string `title` and `listId` with a nullish `description`, any length |
| CardValidation.CreateCardRoundTrip | src/server/schema/card.schema.ts:3-7 | every typed card input, even with an empty title, survives validation unchanged |
| CardValidation.ParseUpdateCardPosition | src/server/schema/card.schema.ts:11-14 | any number is accepted as a position, with no sign or range check |
| CardValidation.UpdateCardPositionRoundTrip | src/server/schema/card.schema.ts:11-14 | every typed position update survives validation unchanged |
| CardValidation.ParseUpdateCard | src/server/schema/card.schema.ts:18-23 | `updateCard` reads the card id and only `card.listId` |
| CardValidation.UpdateCardRoundTrip | src/server/schema/card.schema.ts:18-23 | every typed card update survives validation unchanged |
| CardValidation.UpdateCardDropsDescription | src/server/schema/card.schema.ts:20-22 | a description sent inside `card` is stripped by the schema |
| Schema.NewBoard | src/server/db/schema.ts:52-56 | a board row takes `public` false when none is given, `created_at` the current time, and a NULL `updated_at` |
| Schema.NewRecentView | src/server/db/schema.ts:114-117 | a visit row is for the given (user, board) pair, created now, with a NULL `updated_at` |
| Schema.KeysIdentifyRows | src/server/db/schema.ts:47-49 | in a valid store the primary keys identify rows: one board, list or card per id and one visit per (user, board) pair |
| Schema.InsertBoard | src/server/db/schema.ts:44-63 | a board insert succeeds exactly when its id is new and its title fits, appends that row, and keeps the store valid |
| Schema.InsertList | src/server/db/schema.ts:71-84 | a list insert also requires an existing board (the foreign key) and otherwise fails with a foreign-key violation |
| Schema.InsertCard | src/server/db/schema.ts:91-99 | a card insert checks only its key and title width, never its list |
| Schema.InsertRecent | src/server/db/schema.ts:105-122 | a recently-viewed insert fails with a duplicate entry exactly when its id or its (user, board) pair is taken |
| Schema.SetBoardTitle | src/server/db/schema.ts:50-56 | renaming changes only that board's title, refreshes `updated_at` only when the title changes, and fails when the title is too wide |
| Schema.UpdateCardWhere | src/server/api/routers/card.ts:53-56 | an update by card id rewrites exactly the rows with that id, leaves every other row and table alone, changes nothing for an unknown id, and keeps the store valid |
| Schema.TouchRecent | src/server/api/routers/board.ts:136-143 | the `update … set updatedAt` on the (user, board) pair stamps exactly the matching pair's row, leaves every other row as it was and keeps the store valid |
| BoardRouter.Get | src/server/api/routers/board.ts:15-45 | `get` fails with NOT_FOUND exactly when no board has the id; otherwise it returns that board's fields and its owner when the owner exists |
| BoardRouter.OwnedBy | src/server/api/routers/board.ts:62 | the owner filter keeps exactly that user's boards |
| BoardRouter.Candidates | src/server/api/routers/board.ts:58-69 | without a cursor `all` ranges over the owner's boards; with one, over every board whose id is at least the cursor, whatever its owner |
| BoardRouter.TrimPage | src/server/api/routers/board.ts:72-76 | the kept items are a prefix of the fetched rows; a cursor is produced exactly when more than `limit` rows came back, and then it is the id of the one dropped last row; a fetch of at most `limit + 1` rows keeps at most `limit` |
| BoardRouter.EmptyCursorIsNoCursor | src/server/api/routers/board.ts:66-67 | `if (cursor)` treats an empty-string cursor as no cursor: that page equals the page requested without one |
| BoardRouter.Summary | src/server/api/routers/board.ts:78-84 | an item carries the board's id, title, background and creation time, and an owner exactly when the left join finds the user |
| BoardRouter.Summaries | src/server/api/routers/board.ts:78-84 | each page item is the summary of the fetched row at the same place |
| BoardRouter.SummariesOrdered | src/server/api/routers/board.ts:63-84 | summaries of rows ordered newest first are ordered newest first |
| BoardRouter.Fetch | src/server/api/routers/board.ts:58-70 | the query returns min(limit, candidates) candidate rows, newest first, each at most once as a candidate and all of them when they fit, and no skipped candidate is newer than a returned row |
| BoardRouter.All | src/server/api/routers/board.ts:46-91 | `all` returns at most `limit` items and the count of all boards, and never a next cursor, because it fetches only `limit` rows |
| BoardRouter.AllNewestFirst | src/server/api/routers/board.ts:63 | every page of `all` is ordered by creation time, newest first |
| BoardRouter.AllWithCursor | src/server/api/routers/board.ts:66-69 | with a cursor every listed board's id is at least the cursor, whoever owns it |
| BoardRouter.AllWithoutCursor | src/server/api/routers/board.ts:58-64 | without a cursor `all` lists only the owner's boards, as many as exist up to the limit, and no unlisted board of theirs is newer |
| BoardRouter.AllListsEveryOwnedBoard | src/server/api/routers/board.ts:58-64 | without a cursor, an owner with at most `limit` boards sees every one of them on the page |
| BoardRouter.AllListsDistinctBoards | src/server/api/routers/board.ts:58-84 | in a valid store no board appears twice on a page: the listed ids are pairwise distinct |
| BoardRouter.AllLosesNextPage | src/server/api/routers/board.ts:64-76 | with two boards and a limit of one, `all` offers no next page while the corrected query does |
| BoardRouter.AllFixed | src/server/api/routers/board.ts:72-76 | fetching `limit + 1` rows gives a next cursor exactly when more candidates exist, naming one of them, and a full page otherwise |
| BoardRouter.Create | src/server/api/routers/board.ts:92-107 | `create` refuses a taken title with BAD_REQUEST and leaves the store alone; otherwise it appends the new board, keeping titles unique and the store valid |
| BoardRouter.Edit | src/server/api/routers/board.ts:108-126 | `edit` refuses a missing board with BAD_REQUEST; otherwise it retitles only that board, even onto another board's title |
| BoardRouter.EditOntoTakenTitle | src/server/api/routers/board.ts:108-126 | renaming any board onto the title another board holds succeeds and leaves two boards with that title |
| BoardRouter.EditCanDuplicateTitle | src/server/api/routers/board.ts:108-126 | a store whose titles are unique stops being so after one rename |
| BoardRouter.CreateRecent | src/server/api/routers/board.ts:127-150 | `createRecent` bumps the existing (user, board) row or inserts one, leaving exactly one row for the pair |
| BoardRouter.SinglePairCount | src/server/db/schema.ts:120 | under the pair key a (user, board) pair that occurs occurs exactly once |
| BoardRouter.CreateRecentTwice | src/server/api/routers/board.ts:127-150 | two visits leave one row for the pair, stamped with the second visit's time |
| BoardRouter.RecencyKey | src/server/api/routers/board.ts:156 | `desc(updatedAt)` ranks a NULL below every timestamp and otherwise by the timestamp |
| BoardRouter.RecentRows | src/server/api/routers/board.ts:154-158 | `getRecent` fetches up to five of the user's visit rows, most recently bumped first, each at most once and all of them when there are at most five, and no skipped row of theirs ranks above a fetched one |
| BoardRouter.UserRecents | src/server/api/routers/board.ts:155 | the `where` keeps exactly the user's visit rows |
| BoardRouter.RecentRowsDistinctBoards | src/server/api/routers/board.ts:154-158 | in a valid store the fetched visits name pairwise distinct boards, so no board is listed twice |
| BoardRouter.RecentRowsComplete | src/server/api/routers/board.ts:154-158 | a user with at most five visits gets every one of them |
| BoardRouter.BoardById | src/server/api/routers/board.ts:159-161 | the `board` join finds a board exactly when one has the visit's board id, and under the key it is that board |
| BoardRouter.GetRecent | src/server/api/routers/board.ts:151-163 | each returned entry is the board joined to the fetched row at the same place, at most five in all |
| BoardRouter.BumpedRecents | src/server/db/schema.ts:117 | exactly the user's visit rows whose `updatedAt` has been set |
| BoardRouter.FirstVisitRanksLast | src/server/db/schema.ts:117 | a first visit has a NULL `updatedAt`, so it ranks below every bumped visit of that user, and once the user has five bumped visits `getRecent` does not return it |
| CardRouter.CardById | src/server/api/routers/card.ts:9-10 | the lookup finds a card exactly when one has the id |
| CardRouter.ListById | src/server/api/routers/card.ts:12 | the joined list is found exactly when a list has the card's `listId` |
| CardRouter.ActiveLinks | src/server/api/routers/card.ts:13-14 | the joined label links are exactly the card's links whose status is `active` |
| CardRouter.LabelsOf | src/server/api/routers/card.ts:22 | the labels are the links' labels, one for one, in order |
| CardRouter.Get | src/server/api/routers/card.ts:8-28 | `get` returns the card with its list and active labels, and for an unknown id an empty view rather than an error |
| CardRouter.CardsByPosition | src/server/api/routers/card.ts:32-38 | the query returns a reordering of exactly the list's cards, each as often as it occurs, in ascending position |
| CardRouter.NextPosition | src/server/api/routers/card.ts:46 | a new card's position exceeds every position in its list, is 1 for an empty list, and is otherwise one past some card's position |
| CardRouter.MaxPosition | src/server/api/routers/card.ts:32-38 | reference: the largest position among the list's cards, none for an empty list |
| CardRouter.NextPositionIsMaxPlusOne | src/server/api/routers/card.ts:46 | the last-in-ascending-order rule equals the largest position plus one, or 1 |
| CardRouter.NextPositionIgnoresOtherLists | src/server/api/routers/card.ts:33 | cards in other lists do not move where a list's next card goes |
| CardRouter.Create | src/server/api/routers/card.ts:29-49 | `create` appends the card at the next position of its list and fails only on a taken id or an over-wide title |
| CardRouter.CreateAdvancesPosition | src/server/api/routers/card.ts:40-47 | after a card is created in a list, that list's next position is one further on |
| CardRouter.CreateIgnoresMissingList | src/server/db/schema.ts:97 | a card can be created in a list that does not exist |
| CardRouter.CreateInOrder | src/server/api/routers/card.ts:29-49 | creating n cards in a row gives them consecutive positions starting at the list's next position, and keeps every earlier row |
| CardRouter.UpdateCardPositions | src/server/api/routers/card.ts:50-58 | only the named card's position changes; an unknown id changes nothing and is not an error |
| CardRouter.UpdateCard | src/server/api/routers/card.ts:59-68 | only the named card's list changes; its position and description are kept, and every other row is untouched |
| CardRouter.PositionReadsBack | src/server/api/routers/card.ts:50-58 | reading a card back after setting its position gives that position |
| CardRouter.MoveCanSharePosition | src/server/api/routers/card.ts:59-68 | moving a card into a list can leave two cards there at the same position |
| ColorPicker.DefaultTab | components/ui/color-picker.tsx:62-73 | a background containing `https` opens the image tab; else one containing `gradient` opens the gradient tab; else the solid tab; the written type matches the tab |
| ColorPicker.HandleSetBackground | components/ui/color-picker.tsx:75-78 | the chosen string becomes both the picker's background and the form's `background.value`, and the type is untouched |
| ColorPicker.Rerender | components/ui/color-picker.tsx:62-73 | the memoised re-run rewrites `background.type` to the sniffed kind of the current background and leaves the strings alone |
| ColorPicker.Choose | components/ui/color-picker.tsx:62-78 | after a click the form holds the chosen string and the type sniffed from it |
| ColorPicker.HexColorIsSolid | components/ui/color-picker.tsx:25-34 | every `#rrggbb` color opens the solid tab |
| ColorPicker.LinearGradientIsGradient | components/ui/color-picker.tsx:36-53 | every preset-style linear gradient opens the gradient tab |
| ColorPicker.HttpsIsImage | components/ui/color-picker.tsx:63-66 | any string containing `https` opens the image tab, whatever else it contains |
| ColorPicker.EmptyIsSolid | components/ui/color-picker.tsx:71-72 | the empty background opens the solid tab |
| ColorPicker.SolidsClassified | components/ui/color-picker.tsx:25-34 | every solid preset opens the solid tab |
| ColorPicker.GradientsClassified | components/ui/color-picker.tsx:36-53 | every gradient preset opens the gradient tab |
| ColorPicker.ImagesClassified | components/ui/color-picker.tsx:55-60 | every image preset opens the image tab |
| ColorPicker.GradientPresetRejected | components/ui/color-picker.tsx:67-70 | a board form submitted after choosing any gradient preset is refused by the declared `createBoard` schema |
| ColorPicker.ChosenKindAdmitted | components/ui/color-picker.tsx:62-73 | whatever is chosen, the picker writes `color`, `gradient` or `image` |
| ColorPicker.ChosenFormAccepted | components/ui/color-picker.tsx:75-78 | with the widened schema any chosen background, under an acceptable title, is accepted unchanged |

## Left out

- Authentication: the `protectedProcedure` session check and the `accounts`,
  `sessions` and `verificationTokens` tables. They belong to the external
  auth library; `users` is kept only as a set of ids.
- Collations. String equality and the `gte` on ids are exact, binary
  comparisons. MySQL's default case-insensitive collation is not modelled.
- Column types. Integers are unbounded, so the 32-bit range of `int`
  positions is not modelled. Numbers in payloads are integers, so
  fractional positions are not modelled.
- Id column widths (128 and 255). Only the `varchar(256)` title width is
  checked.
- The `?? 20` default limit of `all`. It is unreachable, because the schema
  requires a limit.
- `updateBoard`, `createRecent`, `getRecent` and `getCard` schemas. The
  routers import them, but the schema file defines none of them. Their
  inputs are taken as plain records with no constraint.
- Label rows. They are not in the declared schema. A card-to-label link is an
  abstract `LabelLink(cardId, labelName, status)`, and the label is its name.
- The driver's result header that mutations return. It is replaced by an
  `Outcome`.
- The count query of `all`. It is read as the number of all boards in the
  same store, so its consistency under concurrent writes is not modelled.
- Concurrency in general: each procedure is one atomic step.
- The React side of the color picker: rendering, popover and tabs. The
  `useMemo` re-run is modelled as `Rerender`, after the handler.
- The two primary keys of `recentlyViewed`. The table declares `id` as a
  primary key and also a compound primary key on (userId, boardId), with
  `userId` nullable. A MySQL table holds at most one primary key, so the
  database cannot enforce both as written. The model treats both as unique:
  `InsertRecent` fails with `DuplicateEntry` when either is taken. The pair
  stays unique either way, because `createRecent` updates an existing pair
  instead of inserting it again. A NULL `userId` is not modelled.
- BoardRouter.Get: the `user` field is the owner's id when that user row
  exists, not the whole user row, because profile columns are out of scope.

## Findings

| source | as written | input that shows it | evidently intended | confidence | as-written member | corrected member |
|---|---|---|---|---|---|---|
| src/server/api/routers/board.ts:64-76 | the query fetches at most `limit` rows, so `items.length > limit` never holds and `nextCursor` is never set | two boards of user `u`, `limit` 1, no cursor: one item and no next cursor | fetch `limit + 1` rows so that the trimming branch can name the next page | high (not executed) | BoardRouter.AllLosesNextPage | BoardRouter.AllFixed |
| src/server/schema/board.shema.ts:20 | `background.type` admits only `color` and `image`, yet the color picker writes `gradient` for every gradient preset | a board form after choosing `linear-gradient(to bottom right,#accbee,#e7f0fd)` | admit `gradient`, the third kind the form produces | high (not executed) | ColorPicker.GradientPresetRejected | BoardValidation.ParseCreateBoardFixed, BoardValidation.FixedAcceptsGradient |
