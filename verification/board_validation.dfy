/**
 * The board request schemas: `getBoardById`, `getAllBoards` and `createBoard`,
 * each a parser from the untyped payload to the typed input the router sees,
 * `None` standing for a rejected request. Each has an encoder, the payload a
 * client sends for a typed input, and a round-trip lemma relating the two.
 */
module BoardValidation {
  import opened Wrappers
  import opened Zod
  import opened Strings
  import opened Schema

  const TitleMin := 2
  const TitleMax := 54
  const LimitMin := 1
  const LimitMax := 100

  /** The `background.type` values the `createBoard` enum admits. */
  const BackgroundTypes: set<string> := {"color", "image"}

  datatype GetBoardByIdInput = GetBoardByIdInput(id: string)

  datatype GetAllBoardsInput = GetAllBoardsInput(cursor: Option<string>, limit: int, userId: string)

  datatype CreateBoardInput = CreateBoardInput(
    title: string,
    background: Background,
    ownerId: string,
    isPublic: bool)

  /** `z.number().min(1).max(100)`. */
  predicate LimitInRange(limit: int)
  {
    LimitMin <= limit <= LimitMax
  }

  /** `z.string().min(2).max(54)`, measured as JavaScript measures length. */
  predicate TitleInRange(title: string)
  {
    TitleMin <= Utf16Length(title) <= TitleMax
  }

  predicate ValidCreateBoard(x: CreateBoardInput, types: set<string>)
  {
    TitleInRange(x.title) && x.background.kind in types
  }

  // ---------------------------------------------------------------------------
  // getBoardById

  function ParseGetBoardById(j: Json): (r: Option<GetBoardByIdInput>)
    ensures r.Some? <==> Member(j, "id").Some? && Member(j, "id").value.JString?
    ensures r.Some? ==> StringAt(j, "id", r.value.id)
  {
    match ZString(Member(j, "id"))
    case Some(id) => Some(GetBoardByIdInput(id))
    case None => None
  }

  function EncodeGetBoardById(x: GetBoardByIdInput): Json
  {
    JObject(map["id" := JString(x.id)])
  }

  lemma GetBoardByIdRoundTrip(x: GetBoardByIdInput)
    ensures ParseGetBoardById(EncodeGetBoardById(x)) == Some(x)
  {
  }

  // ---------------------------------------------------------------------------
  // getAllBoards

  function ParseGetAllBoards(j: Json): (r: Option<GetAllBoardsInput>)
    ensures r.Some? ==> LimitInRange(r.value.limit)
    ensures r.Some? ==> Member(j, "limit") == Some(JNumber(r.value.limit)) && StringAt(j, "userId", r.value.userId)
    ensures r.Some? ==> match r.value.cursor
                        case Some(c) => StringAt(j, "cursor", c)
                        case None => Member(j, "cursor") in {None, Some(JNull)}
    ensures Member(j, "userId").None? ==> r.None?
  {
    match (ZNullishString(Member(j, "cursor")), ZNumber(Member(j, "limit")), ZString(Member(j, "userId")))
    case (Some(cursor), Some(limit), Some(userId)) =>
      if LimitInRange(limit) then Some(GetAllBoardsInput(cursor, limit, userId)) else None
    case _ => None
  }

  /** A missing cursor is sent as no member at all. */
  function EncodeGetAllBoards(x: GetAllBoardsInput): Json
  {
    var fields := map["limit" := JNumber(x.limit), "userId" := JString(x.userId)];
    match x.cursor
    case Some(c) => JObject(fields["cursor" := JString(c)])
    case None => JObject(fields)
  }

  /** A page request is accepted exactly when its limit lies in 1..100. */
  lemma GetAllBoardsRoundTrip(x: GetAllBoardsInput)
    ensures ParseGetAllBoards(EncodeGetAllBoards(x)) == if LimitInRange(x.limit) then Some(x) else None
  {
  }

  /** An explicit `null` cursor reads like an absent one. */
  lemma NullCursorIsNoCursor(limit: int, userId: string)
    ensures ParseGetAllBoards(JObject(map["cursor" := JNull, "limit" := JNumber(limit), "userId" := JString(userId)]))
         == ParseGetAllBoards(EncodeGetAllBoards(GetAllBoardsInput(None, limit, userId)))
  {
  }

  // ---------------------------------------------------------------------------
  // createBoard

  /** `createBoard` with the `background.type` enum given as `types`. */
  function ParseCreateBoardWith(j: Json, types: set<string>): (r: Option<CreateBoardInput>)
    ensures r.Some? ==> ValidCreateBoard(r.value, types)
    ensures r.Some? ==> StringAt(j, "title", r.value.title) && StringAt(j, "ownerId", r.value.ownerId)
    ensures r.Some? ==> Member(j, "background").Some?
                        && StringAt(Member(j, "background").value, "type", r.value.background.kind)
                        && StringAt(Member(j, "background").value, "value", r.value.background.value)
    ensures r.Some? ==> r.value.isPublic == match Member(j, "public")
                                             case None => false
                                             case Some(v) => v == JBool(true)
  {
    var bg := Member(j, "background").GetOr(JNull);
    match (ZString(Member(j, "title")), ZEnum(Member(bg, "type"), types), ZString(Member(bg, "value")),
           ZString(Member(j, "ownerId")), ZBooleanDefault(Member(j, "public"), false))
    case (Some(title), Some(kind), Some(value), Some(ownerId), Some(isPublic)) =>
      if TitleInRange(title) then Some(CreateBoardInput(title, Background(kind, value), ownerId, isPublic))
      else None
    case _ => None
  }

  /** The `createBoard` schema as the repository declares it. */
  function ParseCreateBoard(j: Json): (r: Option<CreateBoardInput>)
    ensures r.Some? ==> TitleInRange(r.value.title)
    ensures r.Some? ==> r.value.background.kind == "color" || r.value.background.kind == "image"
    ensures r == ParseCreateBoardWith(j, BackgroundTypes)
  {
    ParseCreateBoardWith(j, BackgroundTypes)
  }

  function EncodeBackground(b: Background): Json
  {
    JObject(map["type" := JString(b.kind), "value" := JString(b.value)])
  }

  function EncodeCreateBoard(x: CreateBoardInput): Json
  {
    JObject(map["title" := JString(x.title), "background" := EncodeBackground(x.background),
                "ownerId" := JString(x.ownerId), "public" := JBool(x.isPublic)])
  }

  /** A board form is accepted exactly when its title length and background type are allowed. */
  lemma CreateBoardRoundTrip(x: CreateBoardInput, types: set<string>)
    ensures ParseCreateBoardWith(EncodeCreateBoard(x), types)
         == if ValidCreateBoard(x, types) then Some(x) else None
  {
  }

  /** A form that omits `public` is read as a private board. */
  lemma PublicDefaultsToFalse(title: string, background: Background, ownerId: string)
    ensures ParseCreateBoard(JObject(map["title" := JString(title), "background" := EncodeBackground(background),
                                         "ownerId" := JString(ownerId)]))
         == if ValidCreateBoard(CreateBoardInput(title, background, ownerId, false), BackgroundTypes)
            then Some(CreateBoardInput(title, background, ownerId, false)) else None
  {
  }

  /** No payload with a `gradient` background passes the declared schema. */
  lemma GradientRejected(j: Json)
    requires Member(j, "background").Some? && StringAt(Member(j, "background").value, "type", "gradient")
    ensures ParseCreateBoard(j).None?
  {
  }

  /** The `background.type` values the color picker writes into the board form. */
  const PickerBackgroundTypes: set<string> := {"color", "gradient", "image"}

  /** `createBoard` with the enum admitting every type the color picker produces. */
  function ParseCreateBoardFixed(j: Json): (r: Option<CreateBoardInput>)
    ensures r.Some? ==> TitleInRange(r.value.title) && r.value.background.kind in PickerBackgroundTypes
    ensures ParseCreateBoard(j).Some? ==> r == ParseCreateBoard(j)
    ensures r.Some? && r.value.background.kind != "gradient" ==> r == ParseCreateBoard(j)
  {
    ParseCreateBoardWith(j, PickerBackgroundTypes)
  }

  /** The widened schema reads back every form whose title fits and whose type the picker writes. */
  lemma CreateBoardFixedRoundTrip(x: CreateBoardInput)
    ensures ParseCreateBoardFixed(EncodeCreateBoard(x))
         == if ValidCreateBoard(x, PickerBackgroundTypes) then Some(x) else None
  {
    CreateBoardRoundTrip(x, PickerBackgroundTypes);
  }

  /** In particular, a `gradient` background that the declared schema rejects is accepted unchanged. */
  lemma FixedAcceptsGradient(x: CreateBoardInput)
    requires TitleInRange(x.title) && x.background.kind == "gradient"
    ensures ParseCreateBoard(EncodeCreateBoard(x)).None?
    ensures ParseCreateBoardFixed(EncodeCreateBoard(x)) == Some(x)
  {
    CreateBoardRoundTrip(x, BackgroundTypes);
    CreateBoardFixedRoundTrip(x);
  }

  /** An accepted title always fits the 256-character title column. */
  lemma AcceptedTitleFitsColumn(j: Json)
    requires ParseCreateBoard(j).Some?
    ensures |ParseCreateBoard(j).value.title| <= TitleMax <= TitleWidth
  {
  }
}
