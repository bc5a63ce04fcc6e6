/**
 * The card request schemas: `createCard`, `updateCardPosition` and
 * `updateCard`, as parsers from the untyped payload with encoders and
 * round-trip lemmas, in the style of the board schemas.
 */
module CardValidation {
  import opened Wrappers
  import opened Zod

  datatype CreateCardInput = CreateCardInput(title: string, description: Option<string>, listId: string)

  datatype UpdateCardPositionInput = UpdateCardPositionInput(cardId: string, position: int)

  /** `updateCard` carries the card id and, nested under `card`, only the target list. */
  datatype UpdateCardInput = UpdateCardInput(cardId: string, listId: string)

  // ---------------------------------------------------------------------------
  // createCard

  /** Any title is accepted, the empty one included; the description is nullish. */
  function ParseCreateCard(j: Json): (r: Option<CreateCardInput>)
    ensures r.Some? <==> && Member(j, "title").Some? && Member(j, "title").value.JString?
                         && Member(j, "listId").Some? && Member(j, "listId").value.JString?
                         && (Member(j, "description").None? || Member(j, "description").value.JNull?
                             || Member(j, "description").value.JString?)
    ensures r.Some? ==> StringAt(j, "title", r.value.title) && StringAt(j, "listId", r.value.listId)
    ensures r.Some? ==> match r.value.description
                        case Some(d) => StringAt(j, "description", d)
                        case None => Member(j, "description") in {None, Some(JNull)}
  {
    match (ZString(Member(j, "title")), ZNullishString(Member(j, "description")), ZString(Member(j, "listId")))
    case (Some(title), Some(description), Some(listId)) => Some(CreateCardInput(title, description, listId))
    case _ => None
  }

  function EncodeCreateCard(x: CreateCardInput): Json
  {
    var fields := map["title" := JString(x.title), "listId" := JString(x.listId)];
    match x.description
    case Some(d) => JObject(fields["description" := JString(d)])
    case None => JObject(fields)
  }

  /** Every typed card input survives the schema unchanged: no title is too short. */
  lemma CreateCardRoundTrip(x: CreateCardInput)
    ensures ParseCreateCard(EncodeCreateCard(x)) == Some(x)
  {
  }

  // ---------------------------------------------------------------------------
  // updateCardPosition

  /** Any number is a position: no sign or range check. */
  function ParseUpdateCardPosition(j: Json): (r: Option<UpdateCardPositionInput>)
    ensures r.Some? <==> && Member(j, "cardId").Some? && Member(j, "cardId").value.JString?
                         && Member(j, "position").Some? && Member(j, "position").value.JNumber?
    ensures r.Some? ==> StringAt(j, "cardId", r.value.cardId) && Member(j, "position") == Some(JNumber(r.value.position))
  {
    match (ZString(Member(j, "cardId")), ZNumber(Member(j, "position")))
    case (Some(cardId), Some(position)) => Some(UpdateCardPositionInput(cardId, position))
    case _ => None
  }

  function EncodeUpdateCardPosition(x: UpdateCardPositionInput): Json
  {
    JObject(map["cardId" := JString(x.cardId), "position" := JNumber(x.position)])
  }

  lemma UpdateCardPositionRoundTrip(x: UpdateCardPositionInput)
    ensures ParseUpdateCardPosition(EncodeUpdateCardPosition(x)) == Some(x)
  {
  }

  // ---------------------------------------------------------------------------
  // updateCard

  /** Only `card.listId` is read from the nested object; anything else in it is dropped. */
  function ParseUpdateCard(j: Json): (r: Option<UpdateCardInput>)
    ensures r.Some? <==> && Member(j, "cardId").Some? && Member(j, "cardId").value.JString?
                         && Member(j, "card").Some?
                         && Member(Member(j, "card").value, "listId").Some?
                         && Member(Member(j, "card").value, "listId").value.JString?
    ensures r.Some? ==> StringAt(j, "cardId", r.value.cardId)
                        && StringAt(Member(j, "card").value, "listId", r.value.listId)
  {
    var card := Member(j, "card").GetOr(JNull);
    match (ZString(Member(j, "cardId")), ZString(Member(card, "listId")))
    case (Some(cardId), Some(listId)) => Some(UpdateCardInput(cardId, listId))
    case _ => None
  }

  function EncodeUpdateCard(x: UpdateCardInput): Json
  {
    JObject(map["cardId" := JString(x.cardId), "card" := JObject(map["listId" := JString(x.listId)])])
  }

  lemma UpdateCardRoundTrip(x: UpdateCardInput)
    ensures ParseUpdateCard(EncodeUpdateCard(x)) == Some(x)
  {
  }

  /** A description sent inside `card` is dropped by the schema. */
  lemma UpdateCardDropsDescription(x: UpdateCardInput, description: string)
    ensures ParseUpdateCard(JObject(map["cardId" := JString(x.cardId),
                                        "card" := JObject(map["listId" := JString(x.listId),
                                                              "description" := JString(description)])]))
         == Some(x)
  {
  }
}
