/**
 * The board procedures: `get`, `all`, `create`, `edit`, `createRecent` and
 * `getRecent`. Each receives the input its schema produced; mutations return
 * an outcome and the next store, queries return a result over the store.
 * Fresh ids and the current time are parameters.
 */
module BoardRouter {
  import opened Wrappers
  import opened Trpc
  import opened Seqs
  import opened Strings
  import opened Schema
  import opened BoardValidation

  /** What `get` returns; `user` is the owner's user row, here its id when it exists. */
  datatype BoardView = BoardView(
    id: string,
    title: string,
    background: Option<Background>,
    user: Option<string>,
    ownerId: string,
    isPublic: Option<bool>)

  /** One item of an `all` page; `owner` comes from a left join on the users table. */
  datatype BoardSummary = BoardSummary(
    id: string,
    title: string,
    background: Option<Background>,
    createdAt: nat,
    owner: Option<string>)

  datatype Page = Page(items: seq<BoardSummary>, nextCursor: Option<string>, totalCount: nat)

  /** Input of `edit`; its schema is not part of this model, so no constraint is assumed. */
  datatype UpdateBoardInput = UpdateBoardInput(boardId: string, title: string)

  /** Input of `createRecent` and, without the board, of `getRecent`. */
  datatype RecentInput = RecentInput(userId: string, boardId: string)

  const BoardExists := Trpc(BadRequest, "Board already exists")
  const BoardMissing := Trpc(BadRequest, "Board not found")

  /** Page size of `getRecent`. */
  const RecentLimit := 5

  function Owner(s: Store, ownerId: string): Option<string>
  {
    if ownerId in s.users then Some(ownerId) else None
  }

  // ---------------------------------------------------------------------------
  // get

  /** The board with the requested id and its owner, or NOT_FOUND. */
  function Get(s: Store, input: GetBoardByIdInput): (r: Result<BoardView>)
    ensures r.Err? <==> !HasBoard(s.boards, input.id)
    ensures r.Err? ==> r.error == NotFoundError
    ensures ValidStore(s) ==> forall b :: b in s.boards && b.id == input.id ==>
              r == Ok(BoardView(input.id, b.title, b.background, Owner(s, b.ownerId), b.ownerId, b.isPublic))
  {
    match FindFirst(s.boards, (b: Board) => b.id == input.id)
    case None => Err(NotFoundError)
    case Some(i) =>
      var b := s.boards[i];
      Ok(BoardView(input.id, b.title, b.background, Owner(s, b.ownerId), b.ownerId, b.isPublic))
  }

  // ---------------------------------------------------------------------------
  // all

  function CreatedAt(b: Board): int
  {
    b.createdAt
  }

  /** JavaScript truthiness of the cursor: absent, null and "" all read as no cursor. */
  predicate HasCursor(input: GetAllBoardsInput)
  {
    input.cursor.Some? && input.cursor.value != ""
  }

  function OwnedBy(boards: seq<Board>, userId: string): (r: seq<Board>)
    ensures forall b :: b in r <==> b in boards && b.ownerId == userId
  {
    Filter(boards, (b: Board) => b.ownerId == userId)
  }

  /**
   * The rows the query's `where` admits. A cursor's `where` replaces the
   * owner condition instead of adding to it.
   */
  function Candidates(s: Store, input: GetAllBoardsInput): (r: seq<Board>)
    ensures !HasCursor(input) ==> r == OwnedBy(s.boards, input.userId)
    ensures forall b :: b in r ==> b in s.boards
    ensures multiset(r) <= multiset(s.boards)
    ensures HasCursor(input) ==> forall b :: b in r <==> b in s.boards && AtLeast(b.id, input.cursor.value)
  {
    if HasCursor(input) then Filter(s.boards, (b: Board) => AtLeast(b.id, input.cursor.value))
    else OwnedBy(s.boards, input.userId)
  }

  /** One row of the board-user left join, mapped to an item: the owner is absent when no user row matches. */
  function Summary(s: Store, b: Board): (r: BoardSummary)
    ensures r.id == b.id && r.title == b.title && r.background == b.background && r.createdAt == b.createdAt
    ensures r.owner.Some? <==> b.ownerId in s.users
    ensures r.owner.Some? ==> r.owner.value == b.ownerId
  {
    BoardSummary(b.id, b.title, b.background, b.createdAt, Owner(s, b.ownerId))
  }

  /** Drops a row fetched beyond `limit` and turns its id into the next cursor. */
  function TrimPage(rows: seq<Board>, limit: nat): (r: (seq<Board>, Option<string>))
    ensures r.0 <= rows
    ensures r.1.Some? <==> |rows| > limit
    ensures |rows| <= limit + 1 ==> |r.0| <= limit
    ensures r.1.None? ==> r.0 == rows
    ensures r.1.Some? ==> r.0 + [rows[|rows| - 1]] == rows && r.1.value == rows[|rows| - 1].id
  {
    if |rows| > limit then (rows[..|rows| - 1], Some(rows[|rows| - 1].id)) else (rows, None)
  }

  function Summaries(s: Store, rows: seq<Board>): (r: seq<BoardSummary>)
    ensures |r| == |rows|
    ensures forall k :: 0 <= k < |rows| ==> r[k] == Summary(s, rows[k])
  {
    seq(|rows|, k requires 0 <= k < |rows| => Summary(s, rows[k]))
  }

  /** Summaries of rows ordered newest first are ordered newest first. */
  lemma SummariesOrdered(s: Store, rows: seq<Board>)
    requires SortedDesc(rows, CreatedAt)
    ensures var items := Summaries(s, rows);
            forall i, j :: 0 <= i < j < |items| ==> items[i].createdAt >= items[j].createdAt
  {
    var items := Summaries(s, rows);
    forall i, j | 0 <= i < j < |items|
      ensures items[i].createdAt >= items[j].createdAt
    {
      assert CreatedAt(rows[i]) >= CreatedAt(rows[j]);
    }
  }

  /** A fetched row's summary is on the page. */
  lemma SummaryListed(s: Store, rows: seq<Board>, b: Board)
    ensures b in rows ==> Summary(s, b) in Summaries(s, rows)
  {
    if b in rows {
      var k :| 0 <= k < |rows| && rows[k] == b;
      assert Summaries(s, rows)[k] == Summary(s, b);
    }
  }

  /** The rows the `all` query returns when it fetches at most `fetch` of them. */
  function Fetch(s: Store, input: GetAllBoardsInput, fetch: nat): (rows: seq<Board>)
    ensures |rows| == if |Candidates(s, input)| < fetch then |Candidates(s, input)| else fetch
    ensures SortedDesc(rows, CreatedAt)
    ensures multiset(rows) <= multiset(Candidates(s, input))
    ensures |Candidates(s, input)| <= fetch ==> multiset(rows) == multiset(Candidates(s, input))
    ensures forall b :: b in rows ==> b in Candidates(s, input)
    ensures forall b, y :: b in Candidates(s, input) && b !in rows && y in rows ==> CreatedAt(b) <= CreatedAt(y)
  {
    Top(Candidates(s, input), CreatedAt, fetch)
  }

  /**
   * `all`: the query is capped at `limit`, so the trimming branch never runs
   * and no next cursor is ever produced; the count covers every board.
   */
  function All(s: Store, input: GetAllBoardsInput): (p: Page)
    requires LimitInRange(input.limit)
    ensures p.nextCursor.None?
    ensures |p.items| <= input.limit
    ensures p.totalCount == |s.boards|
    ensures p.items == Summaries(s, Fetch(s, input, input.limit))
  {
    var (kept, next) := TrimPage(Fetch(s, input, input.limit), input.limit);
    Page(Summaries(s, kept), next, |s.boards|)
  }

  /** Every page of `all` is ordered newest first. */
  lemma AllNewestFirst(s: Store, input: GetAllBoardsInput)
    requires LimitInRange(input.limit)
    ensures var items := All(s, input).items;
            forall i, j :: 0 <= i < j < |items| ==> items[i].createdAt >= items[j].createdAt
  {
    SummariesOrdered(s, Fetch(s, input, input.limit));
  }

  /** With a cursor, every listed board's id is at least the cursor; the owner is not consulted. */
  lemma AllWithCursor(s: Store, input: GetAllBoardsInput)
    requires LimitInRange(input.limit) && HasCursor(input)
    ensures var items := All(s, input).items;
            forall k :: 0 <= k < |items| ==> AtLeast(items[k].id, input.cursor.value)
  {
    var rows := Fetch(s, input, input.limit);
    assert forall k :: 0 <= k < |rows| ==> rows[k] in rows;
  }

  /** `item` summarises some board of `userId`. */
  predicate OwnerSummary(s: Store, userId: string, item: BoardSummary)
  {
    exists b :: b in s.boards && b.ownerId == userId && item == Summary(s, b)
  }

  /** Fetched rows of one owner give items that each summarise a board of that owner. */
  lemma ItemsOwned(s: Store, rows: seq<Board>, userId: string)
    requires forall b :: b in rows ==> b in s.boards && b.ownerId == userId
    ensures var items := Summaries(s, rows);
            forall k :: 0 <= k < |items| ==> OwnerSummary(s, userId, items[k])
  {
    var items := Summaries(s, rows);
    forall k | 0 <= k < |items| ensures OwnerSummary(s, userId, items[k]) {
      assert rows[k] in rows;
    }
  }

  /** An owner's board missing from the items is no newer than any listed item. */
  lemma UnlistedNotNewer(s: Store, rows: seq<Board>, userId: string)
    requires forall b, y :: b in s.boards && b.ownerId == userId && b !in rows && y in rows ==>
               CreatedAt(b) <= CreatedAt(y)
    ensures var items := Summaries(s, rows);
            forall b, k :: (b in s.boards && b.ownerId == userId && Summary(s, b) !in items
                            && 0 <= k < |items|) ==> b.createdAt <= items[k].createdAt
  {
    var items := Summaries(s, rows);
    forall b, k | (b in s.boards && b.ownerId == userId && Summary(s, b) !in items && 0 <= k < |items|)
      ensures b.createdAt <= items[k].createdAt
    {
      SummaryListed(s, rows, b);
      assert rows[k] in rows;
      assert CreatedAt(b) <= CreatedAt(rows[k]);
    }
  }

  /**
   * Without a cursor, `all` lists the owner's boards only, as many as exist
   * up to `limit`, and no unlisted board of the owner is newer than a listed one.
   */
  lemma AllWithoutCursor(s: Store, input: GetAllBoardsInput)
    requires LimitInRange(input.limit) && !HasCursor(input)
    ensures var items := All(s, input).items;
            var owned := OwnedBy(s.boards, input.userId);
            && |items| == (if |owned| < input.limit then |owned| else input.limit)
            && (forall k :: 0 <= k < |items| ==> OwnerSummary(s, input.userId, items[k]))
            && (forall b, k :: (b in s.boards && b.ownerId == input.userId && Summary(s, b) !in items
                                && 0 <= k < |items|) ==> b.createdAt <= items[k].createdAt)
  {
    var rows := Fetch(s, input, input.limit);
    assert Candidates(s, input) == OwnedBy(s.boards, input.userId);
    ItemsOwned(s, rows, input.userId);
    UnlistedNotNewer(s, rows, input.userId);
  }

  /** Without a cursor, when the owner has at most `limit` boards, every one of them is listed. */
  lemma AllListsEveryOwnedBoard(s: Store, input: GetAllBoardsInput, b: Board)
    requires LimitInRange(input.limit) && !HasCursor(input)
    requires |OwnedBy(s.boards, input.userId)| <= input.limit
    requires b in s.boards && b.ownerId == input.userId
    ensures Summary(s, b) in All(s, input).items
  {
    var rows := Fetch(s, input, input.limit);
    assert b in multiset(Candidates(s, input));
    assert b in multiset(rows);
    SummaryListed(s, rows, b);
  }

  /** Rows taken from a table with a unique board key keep that key unique. */
  lemma KeysUniqueTaken(rows: seq<Board>, boards: seq<Board>)
    requires multiset(rows) <= multiset(boards) && BoardKeysUnique(boards)
    ensures BoardKeysUnique(rows)
  {
    assert Distinct(boards);
    SubMultisetDistinct(rows, boards);
    forall i, j | 0 <= i < j < |rows| ensures rows[i].id != rows[j].id {
      assert rows[i] in multiset(boards) && rows[j] in multiset(boards);
      var p :| 0 <= p < |boards| && boards[p] == rows[i];
      var q :| 0 <= q < |boards| && boards[q] == rows[j];
    }
  }

  /** No board appears twice on a page of `all`: the listed ids are pairwise distinct. */
  lemma AllListsDistinctBoards(s: Store, input: GetAllBoardsInput)
    requires LimitInRange(input.limit) && ValidStore(s)
    ensures var items := All(s, input).items;
            forall i, j :: 0 <= i < j < |items| ==> items[i].id != items[j].id
  {
    var rows := Fetch(s, input, input.limit);
    KeysUniqueTaken(rows, s.boards);
  }

  /** An empty cursor is falsy: the page is the one requested without a cursor. */
  lemma EmptyCursorIsNoCursor(s: Store, input: GetAllBoardsInput)
    requires LimitInRange(input.limit) && input.cursor == Some("")
    ensures All(s, input) == All(s, input.(cursor := None))
  {
    assert Candidates(s, input) == Candidates(s, input.(cursor := None));
  }

  /**
   * `all` as evidently intended: fetching one row beyond `limit` lets the
   * trimming branch detect a further page and name its first board.
   */
  function AllFixed(s: Store, input: GetAllBoardsInput): (p: Page)
    requires LimitInRange(input.limit)
    ensures p.nextCursor.Some? <==> |Candidates(s, input)| > input.limit
    ensures |p.items| == if |Candidates(s, input)| < input.limit then |Candidates(s, input)| else input.limit
    ensures p.totalCount == |s.boards|
    ensures p.nextCursor.Some? ==> exists b :: b in Candidates(s, input) && b.id == p.nextCursor.value
  {
    var rows := Fetch(s, input, input.limit + 1);
    var (kept, next) := TrimPage(rows, input.limit);
    assert |rows| > input.limit ==> rows[|rows| - 1] in rows;
    Page(Summaries(s, kept), next, |s.boards|)
  }

  /** Two boards and a page of one: `all` offers no next page, the corrected query does. */
  lemma AllLosesNextPage()
    ensures var s := Store({"u"}, [Board("a", "Plans", None, Some(false), 2, None, "u"),
                                   Board("b", "Ideas", None, Some(false), 1, None, "u")], [], [], [], []);
            var input := GetAllBoardsInput(None, 1, "u");
            && |Candidates(s, input)| > input.limit
            && All(s, input).nextCursor.None?
            && AllFixed(s, input).nextCursor.Some?
  {
    var s := Store({"u"}, [Board("a", "Plans", None, Some(false), 2, None, "u"),
                           Board("b", "Ideas", None, Some(false), 1, None, "u")], [], [], [], []);
    var input := GetAllBoardsInput(None, 1, "u");
    var p := (b: Board) => b.ownerId == input.userId;
    assert s.boards[1..][1..] == [];
    assert Filter(s.boards[1..], p) == [s.boards[1]] + Filter(s.boards[1..][1..], p);
    assert Candidates(s, input) == s.boards;
  }

  // ---------------------------------------------------------------------------
  // create

  predicate TitleTaken(boards: seq<Board>, title: string)
  {
    exists b :: b in boards && b.title == title
  }

  /** No two boards share a title; kept by `create`, not enforced by the table. */
  ghost predicate TitlesUnique(boards: seq<Board>)
  {
    forall i, j :: 0 <= i < j < |boards| ==> boards[i].title != boards[j].title
  }

  /**
   * `create`: refuses a title any board already has, whoever owns it;
   * otherwise inserts one row built from the input.
   */
  function Create(s: Store, input: CreateBoardInput, freshId: string, now: nat): (r: (Outcome, Store))
    ensures TitleTaken(s.boards, input.title) ==> r == (Failed(BoardExists), s)
    ensures r.0.Failed? ==> r.1 == s
    ensures !TitleTaken(s.boards, input.title) && !HasBoard(s.boards, freshId) && |input.title| <= TitleWidth ==>
              r == (Done, s.(boards := s.boards + [Board(freshId, input.title, Some(input.background),
                                                          Some(input.isPublic), now, None, input.ownerId)]))
    ensures r.0.Done? ==> |r.1.boards| == |s.boards| + 1 && r.1.boards[..|s.boards|] == s.boards
    ensures r.0.Done? && TitlesUnique(s.boards) ==> TitlesUnique(r.1.boards)
    ensures ValidStore(s) ==> ValidStore(r.1)
  {
    if TitleTaken(s.boards, input.title) then (Failed(BoardExists), s)
    else
      var row := NewBoard(freshId, input.title, Some(input.background), Some(input.isPublic), input.ownerId, now);
      match InsertBoard(s, row)
      case Ok(s') =>
        assert s'.boards[..|s.boards|] == s.boards;
        assert forall i :: 0 <= i < |s.boards| ==> s.boards[i] in s.boards;
        (Done, s')
      case Err(e) => (Failed(e), s)
  }

  // ---------------------------------------------------------------------------
  // edit

  /**
   * `edit`: a missing board is a BAD_REQUEST; otherwise only that board's
   * title is set. No uniqueness check is made here.
   */
  function Edit(s: Store, input: UpdateBoardInput, now: nat): (r: (Outcome, Store))
    ensures !HasBoard(s.boards, input.boardId) ==> r == (Failed(BoardMissing), s)
    ensures r.0.Failed? ==> r.1 == s
    ensures r.0.Done? <==> HasBoard(s.boards, input.boardId) && |input.title| <= TitleWidth
    ensures r.0.Done? ==> r.1 == s.(boards := r.1.boards) && |r.1.boards| == |s.boards|
    ensures r.0.Done? ==> forall i :: 0 <= i < |s.boards| ==>
              if s.boards[i].id == input.boardId
              then r.1.boards[i].title == input.title
                   && r.1.boards[i] == s.boards[i].(title := input.title, updatedAt := r.1.boards[i].updatedAt)
              else r.1.boards[i] == s.boards[i]
    ensures ValidStore(s) ==> ValidStore(r.1)
  {
    if !HasBoard(s.boards, input.boardId) then (Failed(BoardMissing), s)
    else
      match SetBoardTitle(s, input.boardId, input.title, now)
      case Ok(s') => (Done, s')
      case Err(e) => (Failed(e), s)
  }

  /** Renaming a board onto the title of another board goes through and leaves two boards with that title. */
  lemma EditOntoTakenTitle(s: Store, input: UpdateBoardInput, now: nat, i: nat, j: nat)
    requires i < |s.boards| && j < |s.boards|
    requires s.boards[j].id == input.boardId && s.boards[i].id != input.boardId
    requires s.boards[i].title == input.title && |input.title| <= TitleWidth
    ensures var r := Edit(s, input, now);
            r.0.Done? && !TitlesUnique(r.1.boards)
  {
    assert s.boards[j] in s.boards;
    var r := Edit(s, input, now);
    assert r.1.boards[i] == s.boards[i];
    assert r.1.boards[j].title == input.title;
    if i < j {
      assert r.1.boards[i].title == r.1.boards[j].title;
    } else {
      assert r.1.boards[j].title == r.1.boards[i].title;
    }
  }

  /** Two boards with distinct titles: renaming the second onto the first's title goes through. */
  lemma EditCanDuplicateTitle()
    ensures var s := Store({}, [Board("a", "Plans", None, Some(false), 0, None, "u"),
                                Board("b", "Ideas", None, Some(false), 0, None, "u")], [], [], [], []);
            var r := Edit(s, UpdateBoardInput("b", "Plans"), 1);
            ValidStore(s) && TitlesUnique(s.boards) && r.0.Done? && !TitlesUnique(r.1.boards)
  {
    var s := Store({}, [Board("a", "Plans", None, Some(false), 0, None, "u"),
                        Board("b", "Ideas", None, Some(false), 0, None, "u")], [], [], [], []);
    EditOntoTakenTitle(s, UpdateBoardInput("b", "Plans"), 1, 0, 1);
    assert TitlesUnique(s.boards) by {
      assert |s.boards| == 2;
    }
  }

  // ---------------------------------------------------------------------------
  // createRecent

  function PairCount(recents: seq<RecentView>, userId: string, boardId: string): nat
  {
    |Filter(recents, (v: RecentView) => IsPair(v, userId, boardId))|
  }

  /**
   * `createRecent`: bumps `updatedAt` of the (user, board) row when there is
   * one, and inserts a row otherwise.
   */
  function CreateRecent(s: Store, input: RecentInput, freshId: string, now: nat): (r: (Outcome, Store))
    ensures r.0.Failed? ==> r.1 == s && !HasPair(s.recents, input.userId, input.boardId)
    ensures HasPair(s.recents, input.userId, input.boardId) ==>
              && r.0.Done? && |r.1.recents| == |s.recents|
              && r.1 == s.(recents := r.1.recents)
              && (forall i :: 0 <= i < |s.recents| ==>
                    r.1.recents[i] == if IsPair(s.recents[i], input.userId, input.boardId)
                                      then s.recents[i].(updatedAt := Some(now)) else s.recents[i])
    ensures !HasPair(s.recents, input.userId, input.boardId) && !HasRecentId(s.recents, freshId) ==>
              r == (Done, s.(recents := s.recents + [RecentView(freshId, input.userId, input.boardId, now, None)]))
    ensures ValidStore(s) && r.0.Done? ==> PairCount(r.1.recents, input.userId, input.boardId) == 1
    ensures ValidStore(s) ==> ValidStore(r.1)
  {
    if HasPair(s.recents, input.userId, input.boardId) then
      var s' := TouchRecent(s, input.userId, input.boardId, now);
      assert ValidStore(s) ==> PairCount(s'.recents, input.userId, input.boardId) == 1 by {
        if ValidStore(s) {
          var v :| v in s.recents && IsPair(v, input.userId, input.boardId);
          var i :| 0 <= i < |s.recents| && s.recents[i] == v;
          assert s'.recents[i] in s'.recents;
          SinglePairCount(s'.recents, input.userId, input.boardId);
        }
      }
      (Done, s')
    else
      match InsertRecent(s, NewRecentView(freshId, input.userId, input.boardId, now))
      case Ok(s') =>
        assert ValidStore(s) ==> PairCount(s'.recents, input.userId, input.boardId) == 1 by {
          if ValidStore(s) {
            assert s'.recents[|s.recents|] in s'.recents;
            SinglePairCount(s'.recents, input.userId, input.boardId);
          }
        }
        (Done, s')
      case Err(e) => (Failed(e), s)
  }

  /** Under the pair key, a pair that occurs occurs exactly once. */
  lemma {:induction false} SinglePairCount(recents: seq<RecentView>, userId: string, boardId: string)
    requires RecentKeysUnique(recents) && HasPair(recents, userId, boardId)
    ensures PairCount(recents, userId, boardId) == 1
  {
    var n := |recents| - 1;
    var init := recents[..n];
    assert recents == init + [recents[n]];
    FilterAppend(init, recents[n], (v: RecentView) => IsPair(v, userId, boardId));
    RecentKeysPrefix(recents, n);
    if IsPair(recents[n], userId, boardId) {
      PairOnlyLast(recents, userId, boardId);
      NoPairCount(init, userId, boardId);
    } else {
      var v :| v in recents && IsPair(v, userId, boardId);
      assert v in init;
      SinglePairCount(init, userId, boardId);
    }
  }

  /** A prefix of a table keeps its keys unique. */
  lemma RecentKeysPrefix(recents: seq<RecentView>, n: nat)
    requires RecentKeysUnique(recents) && n <= |recents|
    ensures RecentKeysUnique(recents[..n])
  {
    forall i, j | 0 <= i < j < n
      ensures recents[..n][i].id != recents[..n][j].id
      ensures recents[..n][i].userId != recents[..n][j].userId || recents[..n][i].boardId != recents[..n][j].boardId
    {
      assert recents[..n][i] == recents[i] && recents[..n][j] == recents[j];
    }
  }

  /** When the last row holds the pair, the rows before it do not. */
  lemma PairOnlyLast(recents: seq<RecentView>, userId: string, boardId: string)
    requires RecentKeysUnique(recents) && |recents| > 0 && IsPair(recents[|recents| - 1], userId, boardId)
    ensures !HasPair(recents[..|recents| - 1], userId, boardId)
  {
    var n := |recents| - 1;
    forall v | v in recents[..n] ensures !IsPair(v, userId, boardId) {
      var i :| 0 <= i < n && recents[..n][i] == v;
      assert recents[i] == v;
    }
  }

  /** A pair that does not occur is counted zero times. */
  lemma NoPairCount(recents: seq<RecentView>, userId: string, boardId: string)
    requires !HasPair(recents, userId, boardId)
    ensures PairCount(recents, userId, boardId) == 0
  {
    assert forall i :: 0 <= i < |recents| ==> recents[i] in recents;
  }

  /** Visiting the same board twice leaves one row for the pair, stamped with the second visit. */
  lemma CreateRecentTwice(s: Store, input: RecentInput, id1: string, id2: string, t1: nat, t2: nat)
    requires ValidStore(s)
    requires CreateRecent(s, input, id1, t1).0.Done?
    ensures var s1 := CreateRecent(s, input, id1, t1).1;
            var s2 := CreateRecent(s1, input, id2, t2).1;
            && |s2.recents| == |s1.recents|
            && PairCount(s2.recents, input.userId, input.boardId) == 1
            && forall v :: v in s2.recents && IsPair(v, input.userId, input.boardId) ==> v.updatedAt == Some(t2)
  {
    var s1 := CreateRecent(s, input, id1, t1).1;
    var s2 := CreateRecent(s1, input, id2, t2).1;
    assert PairCount(s1.recents, input.userId, input.boardId) == 1;
    var f := Filter(s1.recents, (v: RecentView) => IsPair(v, input.userId, input.boardId));
    assert f[0] in f;
    assert HasPair(s1.recents, input.userId, input.boardId);
    forall v | v in s2.recents && IsPair(v, input.userId, input.boardId)
      ensures v.updatedAt == Some(t2)
    {
      var i :| 0 <= i < |s2.recents| && s2.recents[i] == v;
    }
  }

  // ---------------------------------------------------------------------------
  // getRecent

  /** `order by updatedAt desc` puts NULL below every timestamp, so such rows come last. */
  function RecencyKey(v: RecentView): (r: int)
    ensures r < 0 <==> v.updatedAt.None?
    ensures v.updatedAt.Some? ==> r == v.updatedAt.value
  {
    match v.updatedAt
    case Some(t) => t
    case None => -1
  }

  /** The rows `getRecent` fetches: the user's five most recently bumped visits. */
  function RecentRows(s: Store, userId: string): (r: seq<RecentView>)
    ensures |r| <= RecentLimit
    ensures forall v :: v in r ==> v in s.recents && v.userId == userId
    ensures multiset(r) <= multiset(UserRecents(s, userId))
    ensures |UserRecents(s, userId)| <= RecentLimit ==> multiset(r) == multiset(UserRecents(s, userId))
    ensures SortedDesc(r, RecencyKey)
    ensures |r| == if UserRecentCount(s, userId) < RecentLimit then UserRecentCount(s, userId) else RecentLimit
    ensures forall v, w :: v in s.recents && v.userId == userId && v !in r && w in r ==>
              RecencyKey(v) <= RecencyKey(w)
  {
    Top(UserRecents(s, userId), RecencyKey, RecentLimit)
  }

  /** The `where userId = ?` rows of `recentlyViewed`, in table order. */
  function UserRecents(s: Store, userId: string): (r: seq<RecentView>)
    ensures multiset(r) <= multiset(s.recents)
    ensures forall v :: v in r <==> v in s.recents && v.userId == userId
  {
    Filter(s.recents, (v: RecentView) => v.userId == userId)
  }

  /** Number of recently-viewed rows of a user. */
  function UserRecentCount(s: Store, userId: string): nat
  {
    |UserRecents(s, userId)|
  }

  /** Rows taken from a table with both `recentlyViewed` keys unique keep both keys unique. */
  lemma RecentKeysTaken(rows: seq<RecentView>, recents: seq<RecentView>)
    requires multiset(rows) <= multiset(recents) && RecentKeysUnique(recents)
    ensures RecentKeysUnique(rows)
  {
    assert Distinct(recents);
    SubMultisetDistinct(rows, recents);
    forall i, j | 0 <= i < j < |rows|
      ensures rows[i].id != rows[j].id && (rows[i].userId != rows[j].userId || rows[i].boardId != rows[j].boardId)
    {
      assert rows[i] in multiset(recents) && rows[j] in multiset(recents);
      var p :| 0 <= p < |recents| && recents[p] == rows[i];
      var q :| 0 <= q < |recents| && recents[q] == rows[j];
    }
  }

  /** Under the pair key, the fetched visits of one user name pairwise distinct boards. */
  lemma RecentRowsDistinctBoards(s: Store, userId: string)
    requires ValidStore(s)
    ensures var rows := RecentRows(s, userId);
            forall i, j :: 0 <= i < j < |rows| ==> rows[i].boardId != rows[j].boardId
  {
    var rows := RecentRows(s, userId);
    RecentKeysTaken(rows, s.recents);
    forall i, j | 0 <= i < j < |rows| ensures rows[i].boardId != rows[j].boardId {
      assert rows[i] in rows && rows[j] in rows;
    }
  }

  /** When a user has at most five visits, `getRecent` fetches every one of them. */
  lemma RecentRowsComplete(s: Store, userId: string, v: RecentView)
    requires UserRecentCount(s, userId) <= RecentLimit
    requires v in s.recents && v.userId == userId
    ensures v in RecentRows(s, userId)
  {
    assert v in multiset(UserRecents(s, userId));
  }

  /** The `with: { board: true }` join: the first board with the id, if there is one. */
  function BoardById(boards: seq<Board>, id: string): (r: Option<Board>)
    ensures r.Some? <==> HasBoard(boards, id)
    ensures r.Some? ==> r.value in boards && r.value.id == id
    ensures BoardKeysUnique(boards) ==> forall b :: b in boards && b.id == id ==> r == Some(b)
  {
    match FindFirst(boards, (b: Board) => b.id == id)
    case Some(i) => Some(boards[i])
    case None => None
  }

  /** Each fetched row joined to its board, in the fetched order. */
  function JoinBoards(boards: seq<Board>, rows: seq<RecentView>): (r: seq<Option<Board>>)
    ensures |r| == |rows|
    ensures forall k :: 0 <= k < |r| ==> (r[k].Some? <==> HasBoard(boards, rows[k].boardId))
    ensures forall k :: 0 <= k < |r| && r[k].Some? ==> r[k].value in boards && r[k].value.id == rows[k].boardId
  {
    seq(|rows|, k requires 0 <= k < |rows| => BoardById(boards, rows[k].boardId))
  }

  /** `getRecent`: the board joined to each fetched row, in the fetched order. */
  function GetRecent(s: Store, userId: string): (r: seq<Option<Board>>)
    ensures |r| <= RecentLimit && |r| == |RecentRows(s, userId)|
    ensures forall k :: 0 <= k < |r| ==>
              (r[k].Some? <==> HasBoard(s.boards, RecentRows(s, userId)[k].boardId))
    ensures forall k :: 0 <= k < |r| && r[k].Some? ==>
              r[k].value in s.boards && r[k].value.id == RecentRows(s, userId)[k].boardId
  {
    JoinBoards(s.boards, RecentRows(s, userId))
  }

  /** A visit row whose `updatedAt` has been set by a later visit. */
  predicate Bumped(v: RecentView)
  {
    v.updatedAt.Some?
  }

  /** The visits of a user that have been bumped at least once, in table order. */
  function BumpedRecents(s: Store, userId: string): (r: seq<RecentView>)
    ensures forall v :: v in r <==> v in s.recents && v.userId == userId && Bumped(v)
  {
    Filter(UserRecents(s, userId), Bumped)
  }

  /**
   * A first visit inserts a row whose `updatedAt` is NULL, so it ranks below
   * every row of that user that has been bumped at least once; once the user
   * has five bumped visits, `getRecent` does not return it at all.
   */
  lemma FirstVisitRanksLast(s: Store, input: RecentInput, freshId: string, now: nat)
    requires !HasPair(s.recents, input.userId, input.boardId) && !HasRecentId(s.recents, freshId)
    ensures var s' := CreateRecent(s, input, freshId, now).1;
            var visit := RecentView(freshId, input.userId, input.boardId, now, None);
            && visit in s'.recents
            && (forall w :: w in RecentRows(s', input.userId) && w.updatedAt.Some? ==>
                  RecencyKey(visit) < RecencyKey(w))
            && (|BumpedRecents(s, input.userId)| >= RecentLimit ==> visit !in RecentRows(s', input.userId))
  {
    var s' := CreateRecent(s, input, freshId, now).1;
    var visit := RecentView(freshId, input.userId, input.boardId, now, None);
    if visit in RecentRows(s', input.userId) {
      FirstVisitKeepsBumped(s, visit);
      TopOutrankedFewer(UserRecents(s', input.userId), RecencyKey, RecentLimit, Bumped, visit);
    }
  }

  /** Appending a not-yet-bumped visit leaves the user's bumped visits as they were. */
  lemma FirstVisitKeepsBumped(s: Store, visit: RecentView)
    requires visit.updatedAt.None?
    ensures BumpedRecents(s.(recents := s.recents + [visit]), visit.userId) == BumpedRecents(s, visit.userId)
    ensures forall y :: Bumped(y) ==> RecencyKey(y) > RecencyKey(visit)
  {
    var s' := s.(recents := s.recents + [visit]);
    FilterAppend(s.recents, visit, (v: RecentView) => v.userId == visit.userId);
    assert UserRecents(s', visit.userId) == UserRecents(s, visit.userId) + [visit];
    FilterAppend(UserRecents(s, visit.userId), visit, Bumped);
  }
}
