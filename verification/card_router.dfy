/**
 * The card procedures: `get`, `create`, `updateCardPositions` and
 * `updateCard`. A new card goes to the end of its list, one past the largest
 * position the list holds; the two updates rewrite one row by id. Fresh ids
 * are parameters.
 */
module CardRouter {
  import opened Wrappers
  import opened Trpc
  import opened Seqs
  import opened Schema
  import opened CardValidation

  /** Input of `get`; its schema is not part of this model, so no constraint is assumed. */
  datatype GetCardInput = GetCardInput(cardId: string)

  /**
   * What `get` returns: the card's columns spread into the response (absent
   * when no card has the id), its list, its active label links and their labels.
   */
  datatype CardView = CardView(
    card: Option<Card>,
    list: Option<List>,
    links: seq<LabelLink>,
    labels: seq<string>)

  const ActiveStatus := "active"

  // ---------------------------------------------------------------------------
  // get

  function CardById(cards: seq<Card>, id: string): (r: Option<Card>)
    ensures r.Some? <==> HasCard(cards, id)
    ensures r.Some? ==> r.value in cards && r.value.id == id
  {
    match FindFirst(cards, (c: Card) => c.id == id)
    case Some(i) => Some(cards[i])
    case None => None
  }

  function ListById(lists: seq<List>, id: string): (r: Option<List>)
    ensures r.Some? <==> HasList(lists, id)
    ensures r.Some? ==> r.value in lists && r.value.id == id
  {
    match FindFirst(lists, (l: List) => l.id == id)
    case Some(i) => Some(lists[i])
    case None => None
  }

  /** The card's label links whose status is `active`, in table order. */
  function ActiveLinks(links: seq<LabelLink>, cardId: string): (r: seq<LabelLink>)
    ensures forall l :: l in r <==> l in links && l.cardId == cardId && l.status == ActiveStatus
  {
    Filter(links, (l: LabelLink) => l.cardId == cardId && l.status == ActiveStatus)
  }

  function LabelsOf(links: seq<LabelLink>): (r: seq<string>)
    ensures |r| == |links|
    ensures forall k :: 0 <= k < |links| ==> r[k] == links[k].labelName
  {
    seq(|links|, k requires 0 <= k < |links| => links[k].labelName)
  }

  /**
   * `get`: never fails. A missing card gives an empty response whose label
   * list is empty; a found card brings its list, when one has its `listId`.
   */
  function Get(s: Store, input: GetCardInput): (r: CardView)
    ensures r.card.None? <==> !HasCard(s.cards, input.cardId)
    ensures r.card.None? ==> r == CardView(None, None, [], [])
    ensures ValidStore(s) ==> forall c :: c in s.cards && c.id == input.cardId ==> r.card == Some(c)
    ensures r.card.Some? ==> (r.list.Some? <==> HasList(s.lists, r.card.value.listId))
    ensures r.list.Some? ==> r.list.value in s.lists && r.list.value.id == r.card.value.listId
    ensures r.card.Some? ==> forall l :: l in r.links <==>
              l in s.labelLinks && l.cardId == input.cardId && l.status == ActiveStatus
    ensures |r.labels| == |r.links| && forall k :: 0 <= k < |r.links| ==> r.labels[k] == r.links[k].labelName
  {
    match CardById(s.cards, input.cardId)
    case None => CardView(None, None, [], [])
    case Some(c) =>
      var links := ActiveLinks(s.labelLinks, c.id);
      CardView(Some(c), ListById(s.lists, c.listId), links, LabelsOf(links))
  }

  // ---------------------------------------------------------------------------
  // create

  function NegPosition(c: Card): int
  {
    -c.position
  }

  /** The `where listId = ?` rows of `cards`, in table order. */
  function ListCards(cards: seq<Card>, listId: string): (r: seq<Card>)
    ensures multiset(r) <= multiset(cards)
    ensures forall c :: c in r <==> c in cards && c.listId == listId
  {
    Filter(cards, (c: Card) => c.listId == listId)
  }

  /** Ordered by non-increasing negated position is ordered by non-decreasing position. */
  lemma AscendingByPosition(r: seq<Card>)
    requires SortedDesc(r, NegPosition)
    ensures forall i, j :: 0 <= i < j < |r| ==> r[i].position <= r[j].position
  {
    forall i, j | 0 <= i < j < |r| ensures r[i].position <= r[j].position {
      assert NegPosition(r[i]) >= NegPosition(r[j]);
    }
  }

  /** The list's cards as the `order by position asc` query returns them: a reordering of exactly those cards. */
  function CardsByPosition(cards: seq<Card>, listId: string): (r: seq<Card>)
    ensures forall i, j :: 0 <= i < j < |r| ==> r[i].position <= r[j].position
    ensures multiset(r) == multiset(ListCards(cards, listId))
    ensures forall c :: c in r <==> c in cards && c.listId == listId
  {
    var inList := ListCards(cards, listId);
    var r := SortDesc(inList, NegPosition);
    AscendingByPosition(r);
    SameMembers(r, inList);
    r
  }

  /** In a sequence ordered by position, the last card holds the largest position. */
  lemma LastIsHighest(rows: seq<Card>)
    requires |rows| > 0
    requires forall i, j :: 0 <= i < j < |rows| ==> rows[i].position <= rows[j].position
    ensures forall c :: c in rows ==> c.position <= rows[|rows| - 1].position
  {
    forall c | c in rows ensures c.position <= rows[|rows| - 1].position {
      var i :| 0 <= i < |rows| && rows[i] == c;
      if i < |rows| - 1 {
        assert rows[i].position <= rows[|rows| - 1].position;
      }
    }
  }

  /** Some card of `cards` belongs to the list. */
  predicate ListInUse(cards: seq<Card>, listId: string)
  {
    exists c :: c in cards && c.listId == listId
  }

  /**
   * The position `create` gives a new card of the list: one more than the
   * position of the last card in ascending order, or 1 for an empty list.
   */
  function NextPosition(cards: seq<Card>, listId: string): (p: int)
    ensures forall c :: c in cards && c.listId == listId ==> c.position < p
    ensures !ListInUse(cards, listId) ==> p == 1
    ensures ListInUse(cards, listId) ==> exists c :: c in cards && c.listId == listId && p == c.position + 1
  {
    var rows := CardsByPosition(cards, listId);
    if |rows| == 0 then 1
    else
      var last := rows[|rows| - 1];
      assert last in rows;
      LastIsHighest(rows);
      last.position + 1
  }

  /** The largest position among the list's cards: a reference definition by recursion. */
  function MaxPosition(cards: seq<Card>, listId: string): (m: Option<int>)
    ensures m.None? <==> !ListInUse(cards, listId)
    ensures m.Some? ==> exists c :: c in cards && c.listId == listId && c.position == m.value
    ensures m.Some? ==> forall c :: c in cards && c.listId == listId ==> c.position <= m.value
  {
    if |cards| == 0 then None
    else
      var rest := MaxPosition(cards[1..], listId);
      var head := cards[0];
      assert forall c :: c in cards <==> c == head || c in cards[1..] by {
        assert cards == [head] + cards[1..];
      }
      if head.listId != listId then rest
      else match rest
        case None => Some(head.position)
        case Some(m) => if head.position > m then Some(head.position) else Some(m)
  }

  /** The position a new card receives is the list's largest position plus one, or 1. */
  lemma NextPositionIsMaxPlusOne(cards: seq<Card>, listId: string)
    ensures NextPosition(cards, listId) == match MaxPosition(cards, listId)
                                           case None => 1
                                           case Some(m) => m + 1
  {
    match MaxPosition(cards, listId)
    case None =>
    case Some(m) =>
      var p := NextPosition(cards, listId);
      var c :| c in cards && c.listId == listId && c.position == m;
      var d :| d in cards && d.listId == listId && p == d.position + 1;
      assert c.position < p;
      assert d.position <= m;
  }

  /** Appending a card extends the list's rows by it exactly when it belongs to the list. */
  lemma ListCardsAppend(cards: seq<Card>, c: Card, listId: string)
    ensures ListCards(cards + [c], listId) == ListCards(cards, listId) + (if c.listId == listId then [c] else [])
  {
    FilterAppend(cards, c, (d: Card) => d.listId == listId);
  }

  /** Cards of other lists do not affect where a list's next card goes. */
  lemma NextPositionIgnoresOtherLists(cards: seq<Card>, c: Card, listId: string)
    requires c.listId != listId
    ensures NextPosition(cards + [c], listId) == NextPosition(cards, listId)
  {
    ListCardsAppend(cards, c, listId);
    assert ListCards(cards + [c], listId) == ListCards(cards, listId);
    assert CardsByPosition(cards + [c], listId) == CardsByPosition(cards, listId);
  }

  /** The row `create` inserts. */
  function NewCard(id: string, input: CreateCardInput, position: int): Card
  {
    Card(id, input.title, input.description, input.listId, position)
  }

  /**
   * `create`: appends the card after the last one of its list. The list need
   * not exist; an over-wide title is refused by the database.
   */
  function Create(s: Store, input: CreateCardInput, freshId: string): (r: (Outcome, Store))
    ensures r.0.Done? <==> !HasCard(s.cards, freshId) && |input.title| <= TitleWidth
    ensures r.0.Failed? ==> r.1 == s && r.0.error.Database?
    ensures r.0.Done? ==>
              r.1 == s.(cards := s.cards + [NewCard(freshId, input, NextPosition(s.cards, input.listId))])
    ensures ValidStore(s) ==> ValidStore(r.1)
  {
    match InsertCard(s, NewCard(freshId, input, NextPosition(s.cards, input.listId)))
    case Ok(s') => (Done, s')
    case Err(e) => (Failed(e), s)
  }

  /** After a card is created in a list, that list's next position is one further on. */
  lemma CreateAdvancesPosition(s: Store, input: CreateCardInput, freshId: string)
    requires Create(s, input, freshId).0.Done?
    ensures var s' := Create(s, input, freshId).1;
            NextPosition(s'.cards, input.listId) == NextPosition(s.cards, input.listId) + 1
  {
    var p := NextPosition(s.cards, input.listId);
    var c := NewCard(freshId, input, p);
    var cards := s.cards + [c];
    assert c in cards;
    var q := NextPosition(cards, input.listId);
    var d :| d in cards && d.listId == input.listId && q == d.position + 1;
    assert d == c;
  }

  /** A card can be created for a list that does not exist: `listId` carries no foreign key. */
  lemma CreateIgnoresMissingList(s: Store, input: CreateCardInput, freshId: string)
    requires !HasList(s.lists, input.listId) && !HasCard(s.cards, freshId) && |input.title| <= TitleWidth
    ensures Create(s, input, freshId).0.Done?
    ensures !HasList(Create(s, input, freshId).1.lists, input.listId)
  {
  }

  /**
   * `cards` is `base` followed by one card per id and title, in order, in
   * the list `listId`, with positions counting up from `p`.
   */
  ghost predicate AppendedInOrder(cards: seq<Card>, base: seq<Card>, ids: seq<string>, titles: seq<string>,
                                  n: nat, listId: string, p: int)
  {
    && n <= |ids| && n <= |titles|
    && |cards| == |base| + n
    && cards[..|base|] == base
    && forall k :: 0 <= k < n ==> cards[|base| + k] == Card(ids[k], titles[k], None, listId, p + k)
  }

  lemma AppendedSnoc(cards: seq<Card>, base: seq<Card>, ids: seq<string>, titles: seq<string>,
                     n: nat, listId: string, p: int)
    requires n < |ids| && n < |titles|
    requires AppendedInOrder(cards, base, ids, titles, n, listId, p)
    ensures AppendedInOrder(cards + [Card(ids[n], titles[n], None, listId, p + n)], base, ids, titles, n + 1, listId, p)
  {
    var cards' := cards + [Card(ids[n], titles[n], None, listId, p + n)];
    assert cards'[..|base|] == cards[..|base|];
    forall k | 0 <= k < n + 1
      ensures cards'[|base| + k] == Card(ids[k], titles[k], None, listId, p + k)
    {
      if k < n {
        assert cards'[|base| + k] == cards[|base| + k];
      }
    }
  }

  lemma CreateAppends(s: Store, input: CreateCardInput, id: string, q: int)
    requires NextPosition(s.cards, input.listId) == q
    requires !HasCard(s.cards, id) && |input.title| <= TitleWidth
    ensures var r := Create(s, input, id);
            && r.0.Done?
            && r.1.cards == s.cards + [Card(id, input.title, input.description, input.listId, q)]
            && NextPosition(r.1.cards, input.listId) == q + 1
  {
    CreateAdvancesPosition(s, input, id);
  }

  /** One more creation extends an in-order run by the next id and title. */
  lemma CreateNextInOrder(s: Store, base: seq<Card>, ids: seq<string>, titles: seq<string>,
                          n: nat, listId: string, p: int)
    requires n < |ids| && n < |titles|
    requires AppendedInOrder(s.cards, base, ids, titles, n, listId, p)
    requires NextPosition(s.cards, listId) == p + n
    requires !HasCard(s.cards, ids[n]) && |titles[n]| <= TitleWidth
    ensures var r := Create(s, CreateCardInput(titles[n], None, listId), ids[n]);
            && r.0.Done?
            && AppendedInOrder(r.1.cards, base, ids, titles, n + 1, listId, p)
            && NextPosition(r.1.cards, listId) == p + n + 1
  {
    var input := CreateCardInput(titles[n], None, listId);
    CreateAppends(s, input, ids[n], p + n);
    AppendedSnoc(s.cards, base, ids, titles, n, listId, p);
  }

  /** An id that is neither in `base` nor among the first `n` ids is not in the appended table. */
  lemma FreshAfterAppended(cards: seq<Card>, base: seq<Card>, ids: seq<string>, titles: seq<string>,
                           n: nat, listId: string, p: int, id: string)
    requires AppendedInOrder(cards, base, ids, titles, n, listId, p)
    requires !HasCard(base, id) && forall k :: 0 <= k < n ==> ids[k] != id
    ensures !HasCard(cards, id)
  {
    forall c | c in cards ensures c.id != id {
      var i :| 0 <= i < |cards| && cards[i] == c;
      if i < |base| {
        assert cards[..|base|][i] == c;
        assert c in base;
      } else {
        var k := i - |base|;
        assert cards[|base| + k] == c;
        assert c.id == ids[k];
      }
    }
  }

  /** No id names a card of `cards`, and no id is given twice. */
  predicate FreshIds(cards: seq<Card>, ids: seq<string>)
  {
    && (forall k :: 0 <= k < |ids| ==> !HasCard(cards, ids[k]))
    && (forall i, j :: 0 <= i < j < |ids| ==> ids[i] != ids[j])
  }

  /** After `i` creations: the first `i` titles appended in order, and the next position advanced by `i`. */
  ghost predicate InOrderRun(s: Store, r: Store, listId: string, titles: seq<string>, ids: seq<string>, i: nat, p: int)
  {
    AppendedInOrder(r.cards, s.cards, ids, titles, i, listId, p) && NextPosition(r.cards, listId) == p + i
  }

  /** The loop step of `CreateInOrder`: the next fresh id is still free, so its creation extends the run. */
  lemma InOrderStep(s: Store, r: Store, listId: string, titles: seq<string>, ids: seq<string>, i: nat, p: int)
    requires i < |titles| == |ids| && |titles[i]| <= TitleWidth
    requires FreshIds(s.cards, ids)
    requires InOrderRun(s, r, listId, titles, ids, i, p)
    ensures InOrderRun(s, Create(r, CreateCardInput(titles[i], None, listId), ids[i]).1, listId, titles, ids, i + 1, p)
  {
    FreshAfterAppended(r.cards, s.cards, ids, titles, i, listId, p, ids[i]);
    CreateNextInOrder(r, s.cards, ids, titles, i, listId, p);
  }

  /** An empty run starts at the list's next position. */
  lemma InOrderStart(s: Store, listId: string, titles: seq<string>, ids: seq<string>)
    requires |ids| == |titles|
    ensures InOrderRun(s, s, listId, titles, ids, 0, NextPosition(s.cards, listId))
  {
    assert s.cards[..|s.cards|] == s.cards;
  }

  /** A finished run: all titles appended, positions counting up from `p`. */
  lemma InOrderDone(s: Store, r: Store, listId: string, titles: seq<string>, ids: seq<string>, p: int)
    requires |ids| == |titles|
    requires InOrderRun(s, r, listId, titles, ids, |titles|, p)
    ensures |r.cards| == |s.cards| + |titles| && r.cards[..|s.cards|] == s.cards
    ensures forall k :: 0 <= k < |titles| ==> r.cards[|s.cards| + k] == Card(ids[k], titles[k], None, listId, p + k)
    ensures NextPosition(r.cards, listId) == p + |titles|
  {
    assert AppendedInOrder(r.cards, s.cards, ids, titles, |titles|, listId, p);
    forall k | 0 <= k < |titles|
      ensures r.cards[|s.cards| + k] == Card(ids[k], titles[k], None, listId, p + k)
    {
    }
  }

  /**
   * Creates one card per title into the same list, in order, with the given
   * fresh ids. The cards receive consecutive positions starting one past the
   * list's largest position, so an empty list is numbered 1, 2, …, n.
   */
  method CreateInOrder(s: Store, listId: string, titles: seq<string>, ids: seq<string>) returns (r: Store)
    requires |ids| == |titles|
    requires forall k :: 0 <= k < |titles| ==> |titles[k]| <= TitleWidth
    requires FreshIds(s.cards, ids)
    ensures |r.cards| == |s.cards| + |titles| && r.cards[..|s.cards|] == s.cards
    ensures forall k :: 0 <= k < |titles| ==>
              r.cards[|s.cards| + k] == Card(ids[k], titles[k], None, listId, NextPosition(s.cards, listId) + k)
    ensures NextPosition(r.cards, listId) == NextPosition(s.cards, listId) + |titles|
  {
    InOrderStart(s, listId, titles, ids);
    r := s;
    var i := 0;
    while i < |titles|
      invariant 0 <= i <= |titles|
      invariant InOrderRun(s, r, listId, titles, ids, i, NextPosition(s.cards, listId))
    {
      InOrderStep(s, r, listId, titles, ids, i, NextPosition(s.cards, listId));
      r := Create(r, CreateCardInput(titles[i], None, listId), ids[i]).1;
      i := i + 1;
    }
    InOrderDone(s, r, listId, titles, ids, NextPosition(s.cards, listId));
  }

  // ---------------------------------------------------------------------------
  // updateCardPositions and updateCard

  /**
   * `updateCardPositions`: sets the position of the card with the id; no
   * other card moves, and an unknown id changes nothing.
   */
  function UpdateCardPositions(s: Store, input: UpdateCardPositionInput): (r: (Outcome, Store))
    ensures r.0.Done?
    ensures r.1 == s.(cards := r.1.cards) && |r.1.cards| == |s.cards|
    ensures forall i :: 0 <= i < |s.cards| && s.cards[i].id == input.cardId ==>
              r.1.cards[i] == s.cards[i].(position := input.position)
    ensures forall i :: 0 <= i < |s.cards| && s.cards[i].id != input.cardId ==> r.1.cards[i] == s.cards[i]
    ensures !HasCard(s.cards, input.cardId) ==> r.1 == s
    ensures ValidStore(s) ==> ValidStore(r.1)
  {
    (Done, UpdateCardWhere(s, input.cardId, (c: Card) => c.(position := input.position)))
  }

  /**
   * `updateCard`: moves the card with the id to `listId`. Its position and
   * description are kept, and the target list need not exist.
   */
  function UpdateCard(s: Store, input: UpdateCardInput): (r: (Outcome, Store))
    ensures r.0.Done?
    ensures r.1 == s.(cards := r.1.cards) && |r.1.cards| == |s.cards|
    ensures forall i :: 0 <= i < |s.cards| && s.cards[i].id == input.cardId ==>
              r.1.cards[i] == s.cards[i].(listId := input.listId)
    ensures forall i :: 0 <= i < |s.cards| && s.cards[i].id != input.cardId ==> r.1.cards[i] == s.cards[i]
    ensures !HasCard(s.cards, input.cardId) ==> r.1 == s
    ensures ValidStore(s) ==> ValidStore(r.1)
  {
    (Done, UpdateCardWhere(s, input.cardId, (c: Card) => c.(listId := input.listId)))
  }

  /** Setting a card's position and reading the card back gives that position. */
  lemma PositionReadsBack(s: Store, input: UpdateCardPositionInput)
    requires ValidStore(s) && HasCard(s.cards, input.cardId)
    ensures var v := Get(UpdateCardPositions(s, input).1, GetCardInput(input.cardId));
            v.card.Some? && v.card.value.position == input.position
  {
    var s' := UpdateCardPositions(s, input).1;
    var c :| c in s.cards && c.id == input.cardId;
    var i :| 0 <= i < |s.cards| && s.cards[i] == c;
    assert s'.cards[i] in s'.cards;
  }

  /**
   * A moved card keeps its position, so it can land on the position a card
   * of the target list already holds.
   */
  lemma MoveCanSharePosition()
    ensures var s := Store({}, [], [], [Card("a", "Write", None, "todo", 1), Card("b", "Ship", None, "done", 1)], [], []);
            var s' := UpdateCard(s, UpdateCardInput("a", "done")).1;
            && ValidStore(s)
            && s'.cards[0].listId == "done" && s'.cards[1].listId == "done"
            && s'.cards[0].position == s'.cards[1].position
  {
  }
}
