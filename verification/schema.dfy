/**
 * The relational schema of the kanban app: boards, lists, cards, label
 * associations and recently-viewed rows, the store that holds them as tables,
 * the key and width constraints the database enforces, and the primitive
 * inserts and updates the routers issue.
 *
 * Tables are sequences of rows in storage order. Timestamps are naturals.
 * Users appear only as the set of known ids, because the identity tables
 * belong to the authentication layer.
 */
module Schema {
  import opened Wrappers
  import opened Trpc

  /** Width of the `title` varchar on boards, lists and cards, counted in characters. */
  const TitleWidth := 256

  /** The JSON stored in a board's `background` column, as the board form writes it. */
  datatype Background = Background(kind: string, value: string)

  /** A `boards` row. `public` and `updated_at` are nullable columns. */
  datatype Board = Board(
    id: string,
    title: string,
    background: Option<Background>,
    isPublic: Option<bool>,
    createdAt: nat,
    updatedAt: Option<nat>,
    ownerId: string)

  /** A `lists` row; `boardId` carries a foreign key to `boards.id`. */
  datatype List = List(
    id: string,
    title: string,
    position: int,
    boardId: string,
    createdAt: nat,
    updatedAt: Option<nat>)

  /** A `cards` row; `listId` is required but carries no foreign key. */
  datatype Card = Card(
    id: string,
    title: string,
    description: Option<string>,
    listId: string,
    position: int)

  /** A `recentlyViewed` row. */
  datatype RecentView = RecentView(
    id: string,
    userId: string,
    boardId: string,
    createdAt: nat,
    updatedAt: Option<nat>)

  /** A card-to-label association; the label itself is kept abstract. */
  datatype LabelLink = LabelLink(cardId: string, labelName: string, status: string)

  datatype Store = Store(
    users: set<string>,
    boards: seq<Board>,
    lists: seq<List>,
    cards: seq<Card>,
    labelLinks: seq<LabelLink>,
    recents: seq<RecentView>)

  // ---------------------------------------------------------------------------
  // Constraints the database keeps

  ghost predicate BoardKeysUnique(boards: seq<Board>)
  {
    forall i, j :: 0 <= i < j < |boards| ==> boards[i].id != boards[j].id
  }

  ghost predicate ListKeysUnique(lists: seq<List>)
  {
    forall i, j :: 0 <= i < j < |lists| ==> lists[i].id != lists[j].id
  }

  ghost predicate CardKeysUnique(cards: seq<Card>)
  {
    forall i, j :: 0 <= i < j < |cards| ==> cards[i].id != cards[j].id
  }

  /** Both declared keys of `recentlyViewed` are taken as unique: the row id and the (userId, boardId) pair. */
  ghost predicate RecentKeysUnique(recents: seq<RecentView>)
  {
    forall i, j :: 0 <= i < j < |recents| ==>
      recents[i].id != recents[j].id &&
      (recents[i].userId != recents[j].userId || recents[i].boardId != recents[j].boardId)
  }

  ghost predicate TitlesFit(s: Store)
  {
    && (forall b :: b in s.boards ==> |b.title| <= TitleWidth)
    && (forall l :: l in s.lists ==> |l.title| <= TitleWidth)
    && (forall c :: c in s.cards ==> |c.title| <= TitleWidth)
  }

  /** The one foreign key of the core tables: every list names an existing board. */
  ghost predicate ListsReferenceBoards(s: Store)
  {
    forall l :: l in s.lists ==> HasBoard(s.boards, l.boardId)
  }

  ghost predicate ValidStore(s: Store)
  {
    && BoardKeysUnique(s.boards)
    && ListKeysUnique(s.lists)
    && CardKeysUnique(s.cards)
    && RecentKeysUnique(s.recents)
    && TitlesFit(s)
    && ListsReferenceBoards(s)
  }

  /**
   * What the keys guarantee: in a valid store a board, list or card is
   * determined by its id, and a recently-viewed row by its (user, board) pair.
   */
  lemma KeysIdentifyRows(s: Store)
    requires ValidStore(s)
    ensures forall b, b' :: b in s.boards && b' in s.boards && b.id == b'.id ==> b == b'
    ensures forall l, l' :: l in s.lists && l' in s.lists && l.id == l'.id ==> l == l'
    ensures forall c, c' :: c in s.cards && c' in s.cards && c.id == c'.id ==> c == c'
    ensures forall v, v' :: v in s.recents && v' in s.recents && IsPair(v, v'.userId, v'.boardId) ==> v == v'
  {
    forall b, b' | b in s.boards && b' in s.boards && b.id == b'.id ensures b == b' {
      var i :| 0 <= i < |s.boards| && s.boards[i] == b;
      var j :| 0 <= j < |s.boards| && s.boards[j] == b';
    }
    forall l, l' | l in s.lists && l' in s.lists && l.id == l'.id ensures l == l' {
      var i :| 0 <= i < |s.lists| && s.lists[i] == l;
      var j :| 0 <= j < |s.lists| && s.lists[j] == l';
    }
    forall c, c' | c in s.cards && c' in s.cards && c.id == c'.id ensures c == c' {
      var i :| 0 <= i < |s.cards| && s.cards[i] == c;
      var j :| 0 <= j < |s.cards| && s.cards[j] == c';
    }
    forall v, v' | v in s.recents && v' in s.recents && IsPair(v, v'.userId, v'.boardId) ensures v == v' {
      var i :| 0 <= i < |s.recents| && s.recents[i] == v;
      var j :| 0 <= j < |s.recents| && s.recents[j] == v';
    }
  }

  predicate HasBoard(boards: seq<Board>, id: string)
  {
    exists b :: b in boards && b.id == id
  }

  predicate HasList(lists: seq<List>, id: string)
  {
    exists l :: l in lists && l.id == id
  }

  predicate HasCard(cards: seq<Card>, id: string)
  {
    exists c :: c in cards && c.id == id
  }

  predicate HasRecentId(recents: seq<RecentView>, id: string)
  {
    exists v :: v in recents && v.id == id
  }

  predicate IsPair(v: RecentView, userId: string, boardId: string)
  {
    v.userId == userId && v.boardId == boardId
  }

  predicate HasPair(recents: seq<RecentView>, userId: string, boardId: string)
  {
    exists v :: v in recents && IsPair(v, userId, boardId)
  }

  // ---------------------------------------------------------------------------
  // Rows as an insert writes them

  /**
   * The row `insert into boards` writes: an omitted `public` takes its column
   * default false, `created_at` defaults to the current time and `updated_at`,
   * having no default, starts NULL.
   */
  function NewBoard(id: string, title: string, background: Option<Background>,
                    isPublic: Option<bool>, ownerId: string, now: nat): (r: Board)
    ensures r.id == id && r.title == title && r.background == background && r.ownerId == ownerId
    ensures isPublic.None? ==> r.isPublic == Some(false)
    ensures isPublic.Some? ==> r.isPublic == isPublic
    ensures r.createdAt == now && r.updatedAt.None?
  {
    Board(id, title, background, Some(isPublic.GetOr(false)), now, None, ownerId)
  }

  /** The row `insert into recentlyViewed` writes for a (user, board) pair. */
  function NewRecentView(id: string, userId: string, boardId: string, now: nat): (r: RecentView)
    ensures r.id == id && IsPair(r, userId, boardId)
    ensures r.createdAt == now && r.updatedAt.None?
  {
    RecentView(id, userId, boardId, now, None)
  }

  // ---------------------------------------------------------------------------
  // Inserts

  function InsertBoard(s: Store, b: Board): (r: Result<Store>)
    ensures r.Ok? <==> !HasBoard(s.boards, b.id) && |b.title| <= TitleWidth
    ensures r.Ok? ==> r.value == s.(boards := s.boards + [b])
    ensures r.Err? ==> r.error.Database?
    ensures ValidStore(s) && r.Ok? ==> ValidStore(r.value)
  {
    if |b.title| > TitleWidth then Err(Database(DataTooLong))
    else if HasBoard(s.boards, b.id) then Err(Database(DuplicateEntry))
    else
      var s' := s.(boards := s.boards + [b]);
      assert ValidStore(s) ==> ListsReferenceBoards(s') by {
        forall l | l in s'.lists && ValidStore(s)
          ensures HasBoard(s'.boards, l.boardId)
        {
          var p :| p in s.boards && p.id == l.boardId;
          assert p in s'.boards;
        }
      }
      Ok(s')
  }

  /** A list insert also checks its board reference. */
  function InsertList(s: Store, l: List): (r: Result<Store>)
    ensures r.Ok? <==> !HasList(s.lists, l.id) && |l.title| <= TitleWidth && HasBoard(s.boards, l.boardId)
    ensures !HasBoard(s.boards, l.boardId) && !HasList(s.lists, l.id) && |l.title| <= TitleWidth
            ==> r == Err(Database(ForeignKeyViolation))
    ensures r.Ok? ==> r.value == s.(lists := s.lists + [l])
    ensures ValidStore(s) && r.Ok? ==> ValidStore(r.value)
  {
    if |l.title| > TitleWidth then Err(Database(DataTooLong))
    else if HasList(s.lists, l.id) then Err(Database(DuplicateEntry))
    else if !HasBoard(s.boards, l.boardId) then Err(Database(ForeignKeyViolation))
    else Ok(s.(lists := s.lists + [l]))
  }

  /** A card insert checks its key and title width, and nothing about `listId`. */
  function InsertCard(s: Store, c: Card): (r: Result<Store>)
    ensures r.Ok? <==> !HasCard(s.cards, c.id) && |c.title| <= TitleWidth
    ensures r.Ok? ==> r.value == s.(cards := s.cards + [c])
    ensures r.Err? ==> r.error.Database?
    ensures ValidStore(s) && r.Ok? ==> ValidStore(r.value)
  {
    if |c.title| > TitleWidth then Err(Database(DataTooLong))
    else if HasCard(s.cards, c.id) then Err(Database(DuplicateEntry))
    else Ok(s.(cards := s.cards + [c]))
  }

  /** A recently-viewed insert checks both its keys. */
  function InsertRecent(s: Store, v: RecentView): (r: Result<Store>)
    ensures r.Ok? <==> !HasRecentId(s.recents, v.id) && !HasPair(s.recents, v.userId, v.boardId)
    ensures r.Ok? ==> r.value == s.(recents := s.recents + [v])
    ensures r.Err? ==> r.error == Database(DuplicateEntry)
    ensures ValidStore(s) && r.Ok? ==> ValidStore(r.value)
  {
    if HasRecentId(s.recents, v.id) || HasPair(s.recents, v.userId, v.boardId) then
      Err(Database(DuplicateEntry))
    else
      var s' := s.(recents := s.recents + [v]);
      assert ValidStore(s) ==> RecentKeysUnique(s'.recents) by {
        if ValidStore(s) {
          forall i, j | 0 <= i < j < |s'.recents|
            ensures s'.recents[i].id != s'.recents[j].id
            ensures !IsPair(s'.recents[j], s'.recents[i].userId, s'.recents[i].boardId)
          {
            if j == |s.recents| {
              assert s'.recents[i] in s.recents;
            }
          }
        }
      }
      Ok(s')
  }

  // ---------------------------------------------------------------------------
  // Updates by key: `update … set … where id = ?`

  /**
   * `update boards set title = t where id = ?`. The `updated_at` column is
   * maintained by ON UPDATE CURRENT_TIMESTAMP, which fires only on a row whose
   * value actually changes. An over-wide title is refused when a row matches.
   */
  function SetBoardTitle(s: Store, id: string, title: string, now: nat): (r: Result<Store>)
    ensures r.Err? <==> HasBoard(s.boards, id) && |title| > TitleWidth
    ensures r.Err? ==> r.error == Database(DataTooLong)
    ensures r.Ok? ==> r.value == s.(boards := r.value.boards) && |r.value.boards| == |s.boards|
    ensures r.Ok? ==> forall i :: 0 <= i < |s.boards| && s.boards[i].id != id ==>
              r.value.boards[i] == s.boards[i]
    ensures r.Ok? ==> forall i :: 0 <= i < |s.boards| && s.boards[i].id == id ==>
              r.value.boards[i] == s.boards[i].(
                title := title,
                updatedAt := if s.boards[i].title == title then s.boards[i].updatedAt else Some(now))
    ensures ValidStore(s) && r.Ok? ==> ValidStore(r.value)
  {
    if HasBoard(s.boards, id) && |title| > TitleWidth then Err(Database(DataTooLong))
    else
      var boards := seq(|s.boards|, i requires 0 <= i < |s.boards| =>
        var b := s.boards[i];
        if b.id != id then b
        else if b.title == title then b
        else b.(title := title, updatedAt := Some(now)));
      var s' := s.(boards := boards);
      SameBoardKeys(s, boards);
      Ok(s')
  }

  /** Rewriting board rows in place, keeping ids and titles that fit, keeps the store valid. */
  lemma SameBoardKeys(s: Store, boards: seq<Board>)
    requires |boards| == |s.boards|
    requires forall i :: 0 <= i < |boards| ==> boards[i].id == s.boards[i].id
    requires forall i :: 0 <= i < |boards| ==> boards[i].title == s.boards[i].title || |boards[i].title| <= TitleWidth
    ensures ValidStore(s) ==> ValidStore(s.(boards := boards))
  {
    if ValidStore(s) {
      var s' := s.(boards := boards);
      forall b | b in boards ensures |b.title| <= TitleWidth {
        var i :| 0 <= i < |boards| && boards[i] == b;
        assert s.boards[i] in s.boards;
      }
      forall l | l in s'.lists ensures HasBoard(s'.boards, l.boardId) {
        var i :| 0 <= i < |s.boards| && s.boards[i].id == l.boardId;
        assert boards[i] in boards;
      }
    }
  }

  /** Rewriting card rows in place without touching ids or titles keeps the store valid. */
  lemma SameCardKeysAndTitles(s: Store, cards: seq<Card>)
    requires |cards| == |s.cards|
    requires forall i :: 0 <= i < |cards| ==> cards[i].id == s.cards[i].id && cards[i].title == s.cards[i].title
    ensures ValidStore(s) ==> ValidStore(s.(cards := cards))
  {
    if ValidStore(s) {
      forall c | c in cards ensures |c.title| <= TitleWidth {
        var i :| 0 <= i < |cards| && cards[i] == c;
        assert s.cards[i] in s.cards;
      }
    }
  }

  /**
   * `update cards set … where id = ?`: the matching row is rewritten by `f`,
   * which leaves the key and the title alone; no other row changes.
   */
  function UpdateCardWhere(s: Store, id: string, f: Card -> Card): (r: Store)
    requires forall c :: f(c).id == c.id && f(c).title == c.title
    ensures r == s.(cards := r.cards) && |r.cards| == |s.cards|
    ensures forall i :: 0 <= i < |s.cards| ==>
              r.cards[i] == if s.cards[i].id == id then f(s.cards[i]) else s.cards[i]
    ensures !HasCard(s.cards, id) ==> r == s
    ensures ValidStore(s) ==> ValidStore(r)
  {
    var cards := seq(|s.cards|, i requires 0 <= i < |s.cards| =>
      if s.cards[i].id == id then f(s.cards[i]) else s.cards[i]);
    SameCardKeysAndTitles(s, cards);
    assert !HasCard(s.cards, id) ==> cards == s.cards by {
      if !HasCard(s.cards, id) {
        assert forall i :: 0 <= i < |s.cards| ==> s.cards[i] in s.cards;
      }
    }
    s.(cards := cards)
  }

  /** `update recentlyViewed set updatedAt = now where userId = ? and boardId = ?`. */
  function TouchRecent(s: Store, userId: string, boardId: string, now: nat): (r: Store)
    ensures r == s.(recents := r.recents) && |r.recents| == |s.recents|
    ensures forall i :: 0 <= i < |s.recents| ==>
              r.recents[i] == if IsPair(s.recents[i], userId, boardId)
                              then s.recents[i].(updatedAt := Some(now)) else s.recents[i]
    ensures ValidStore(s) ==> ValidStore(r)
  {
    var recents := seq(|s.recents|, i requires 0 <= i < |s.recents| =>
      if IsPair(s.recents[i], userId, boardId) then s.recents[i].(updatedAt := Some(now)) else s.recents[i]);
    s.(recents := recents)
  }
}
