/** The values of the sync server: entities, changes, flat v1 comics, requests and responses,
    with the field limits both protocols enforce. */
module SyncTypes {
  import opened Basics
  import opened Utf8

  const MAX_INT64: int := 0x7FFF_FFFF_FFFF_FFFF
  const MIN_INT64: int := -0x8000_0000_0000_0000

  // ---------- Texts ----------

  predicate IsSpace(c: char) {
    var n := c as int;
    || 0x09 <= n <= 0x0D || 0x1C <= n <= 0x20 || n == 0x85 || n == 0xA0 || n == 0x1680
    || 0x2000 <= n <= 0x200A || n == 0x2028 || n == 0x2029 || n == 0x202F || n == 0x205F
    || n == 0x3000
  }

  function StripLeft(s: string): string {
    if s != [] && IsSpace(s[0]) then StripLeft(s[1..]) else s
  }

  function StripRight(s: string): string {
    if s != [] && IsSpace(s[|s| - 1]) then StripRight(s[..|s| - 1]) else s
  }

  function Strip(s: string): string {
    StripRight(StripLeft(s))
  }

  predicate IsControl(c: char) {
    c as int < 0x20 || c as int == 0x7F
  }

  // _identifier
  predicate IsIdentifier(value: string, limit: nat) {
    && value != [] && value == Strip(value)
    && Bytes(value) <= limit
    && forall i :: 0 <= i < |value| ==> !IsControl(value[i])
  }

  // _text_value
  predicate IsText(value: string, limit: nat) {
    Bytes(value) <= limit
  }

  predicate IsNonEmptyText(value: string, limit: nat) {
    Strip(value) != [] && IsText(value, limit)
  }

  predicate InRange(value: Option<int>, least: int, most: int) {
    value.Some? ==> least <= value.value <= most
  }

  // ---------- Entities and changes ----------

  // A floating-point number; only what the server asks of it is modelled.
  datatype Number = Finite(amount: real) | PositiveInfinity | NegativeInfinity | NotANumber

  datatype Origin = Bundled | Custom

  // The hint's own id always equals the issue id it is attached to, so it is not repeated.
  datatype Hint = Hint(series: string, edition: string, number: int, title: string,
                       publisher: string, year: Option<int>, origin: Origin)

  datatype IssueData = IssueData(series: string, edition: string, number: int, title: string,
                                 publisher: string, year: Option<int>, pageCount: Option<int>,
                                 writer: string, artist: string, deleted: bool)

  datatype EntryData = EntryData(issueId: string, owned: bool, isWanted: bool, isRead: bool,
                                 isDuplicate: bool, rating: int, notes: string, deleted: bool,
                                 updatedAt: int, hint: Option<Hint>)

  datatype CopyData = CopyData(issueId: string, ordinal: int, active: bool, conditionGrade: string,
                               purchasePrice: Option<Number>, estimatedValue: Option<Number>,
                               loanedTo: string, deleted: bool, updatedAt: int, hint: Option<Hint>)

  datatype BarcodeData = BarcodeData(issueId: string, deleted: bool, updatedAt: int,
                                     hint: Option<Hint>)

  datatype Data = Issue(issue: IssueData) | Entry(entry: EntryData) | Copy(copy: CopyData)
                | Barcode(barcode: BarcodeData)

  datatype Kind = CustomIssue | CollectionEntry | PhysicalCopy | BarcodeMapping

  datatype Operation = Upsert | Delete

  datatype Change = Change(id: string, op: Operation, data: Data)

  datatype Key = Key(kind: Kind, id: string)

  datatype Entity = Entity(op: Operation, data: Data, revision: nat)

  // The table v2_entities with its primary key (entity_type, entity_id).
  type Entities = map<Key, Entity>

  function KindOf(data: Data): Kind {
    match data
    case Issue(_) => CustomIssue
    case Entry(_) => CollectionEntry
    case Copy(_) => PhysicalCopy
    case Barcode(_) => BarcodeMapping
  }

  function KeyOf(c: Change): Key {
    Key(KindOf(c.data), c.id)
  }

  // _change_issue_id; the issue_id column of a stored entity is this value too.
  function IssueOf(id: string, data: Data): string {
    match data
    case Issue(_) => id
    case Entry(d) => d.issueId
    case Copy(d) => d.issueId
    case Barcode(d) => d.issueId
  }

  function HintOf(data: Data): Option<Hint> {
    match data
    case Issue(_) => None
    case Entry(d) => d.hint
    case Copy(d) => d.hint
    case Barcode(d) => d.hint
  }

  predicate IsDeleted(data: Data) {
    match data
    case Issue(d) => d.deleted
    case Entry(d) => d.deleted
    case Copy(d) => d.deleted
    case Barcode(d) => d.deleted
  }

  function ChangeIssue(c: Change): string {
    IssueOf(c.id, c.data)
  }

  predicate IsCopyOf(data: Data, issue: string) {
    data.Copy? && data.copy.issueId == issue
  }

  // A copy that counts: present, not a tombstone, and active.
  predicate IsActiveCopy(op: Operation, data: Data) {
    data.Copy? && op.Upsert? && !data.copy.deleted && data.copy.active
  }

  // ---------- Limits of a v2 change ----------

  const CONDITION_GRADES: set<string> := {"", "M", "VF", "F", "G", "P"}

  predicate IsPrice(p: Option<Number>) {
    p.Some? ==> p.value.Finite? && p.value.amount >= 0.0
  }

  predicate ValidHint(h: Option<Hint>) {
    h.Some? ==>
      && IsNonEmptyText(h.value.series, 200) && IsText(h.value.edition, 200)
      && 0 <= h.value.number <= 1_000_000_000 && IsNonEmptyText(h.value.title, 500)
      && IsText(h.value.publisher, 200) && InRange(h.value.year, 0, 3000)
  }

  predicate ValidData(data: Data) {
    match data
    case Issue(d) =>
      && IsNonEmptyText(d.series, 200) && IsText(d.edition, 200)
      && 0 <= d.number <= 1_000_000_000 && IsNonEmptyText(d.title, 500) && IsText(d.publisher, 200)
      && InRange(d.year, 0, 3000) && InRange(d.pageCount, 0, 100_000)
      && IsText(d.writer, 300) && IsText(d.artist, 300)
    case Entry(d) =>
      && IsIdentifier(d.issueId, 128) && 0 <= d.rating <= 5 && IsText(d.notes, 10_000)
      && 0 <= d.updatedAt <= MAX_INT64 && ValidHint(d.hint)
    case Copy(d) =>
      && IsIdentifier(d.issueId, 128) && 0 <= d.ordinal <= 1_000_000
      && d.conditionGrade in CONDITION_GRADES && IsPrice(d.purchasePrice)
      && IsPrice(d.estimatedValue) && IsText(d.loanedTo, 300)
      && 0 <= d.updatedAt <= MAX_INT64 && ValidHint(d.hint)
    case Barcode(d) =>
      IsIdentifier(d.issueId, 128) && 0 <= d.updatedAt <= MAX_INT64 && ValidHint(d.hint)
  }

  // Everything _validate_v2_change checks except the length of the entity id.
  predicate ValidBody(c: Change) {
    && ValidData(c.data)
    && (c.data.Issue? ==> IsIdentifier(c.id, 128))
    && (c.data.Entry? ==> c.id == c.data.entry.issueId)
    && (!c.data.Issue? ==> (IsDeleted(c.data) <==> c.op.Delete?))
  }

  // _validate_v2_change
  predicate ValidChange(c: Change) {
    ValidBody(c) && IsIdentifier(c.id, if c.data.Barcode? then 512 else 128)
  }

  // ---------- Flat v1 comics ----------

  datatype Comic = Comic(id: string, series: string, edition: string, number: int, title: string,
                         publisher: string, year: Option<int>, owned: bool, isRead: bool,
                         conditionGrade: string, purchasePrice: Option<Number>,
                         estimatedValue: Option<Number>, isDuplicate: bool, loanedTo: string,
                         notes: string, coverAsset: string, rating: int, pageCount: Option<int>,
                         writer: string, artist: string, deleted: bool, updatedAt: int)

  type Comics = map<string, Comic>

  function Cut(s: string, limit: nat): string {
    if |s| <= limit then s else s[..limit]
  }

  // validate_comic on a value whose fields already have their types: texts are cut, the rating
  // is clamped, and what cannot be stored is refused.
  function ValidateComic(raw: Comic): Option<Comic> {
    var c := raw.(
      id := Cut(raw.id, 64), series := Cut(raw.series, 200), edition := Cut(raw.edition, 200),
      title := Cut(raw.title, 500), publisher := Cut(raw.publisher, 200),
      conditionGrade := Cut(raw.conditionGrade, 8), loanedTo := Cut(raw.loanedTo, 300),
      notes := Cut(raw.notes, 10_000), coverAsset := Cut(raw.coverAsset, 500),
      writer := Cut(raw.writer, 300), artist := Cut(raw.artist, 300),
      rating := Max(0, Min(5, raw.rating)));
    if c.id == [] || c.series == [] || c.number < 0 then None
    else if !InRange(Some(c.number), MIN_INT64, MAX_INT64) || !InRange(c.year, MIN_INT64, MAX_INT64)
         || !InRange(c.pageCount, MIN_INT64, MAX_INT64)
         || !InRange(Some(c.updatedAt), MIN_INT64, MAX_INT64) then None
    else if c.conditionGrade !in CONDITION_GRADES then None
    else Some(c)
  }

  predicate ValidComic(c: Comic) {
    ValidateComic(c) == Some(c)
  }

  lemma ValidateComicIsIdempotent(raw: Comic)
    ensures ValidateComic(raw).Some? ==> ValidComic(ValidateComic(raw).value)
  {
  }

  // The database turns the number that is not a number into NULL.
  function StoredPrice(p: Option<Number>): Option<Number> {
    if p == Some(NotANumber) then None else p
  }

  function StoredComic(c: Comic): Comic {
    c.(purchasePrice := StoredPrice(c.purchasePrice), estimatedValue := StoredPrice(c.estimatedValue))
  }

  // The UPSERT statement: an existing row is replaced only by a strictly newer one.
  function UpsertComic(comics: Comics, c: Comic): Comics {
    if c.id !in comics || c.updatedAt > comics[c.id].updatedAt
    then comics[c.id := StoredComic(c)]
    else comics
  }

  // ---------- Mutations, requests and responses ----------

  // Client ids and the server's own ids share one name space. "v1:" and "bootstrap:" ids hold
  // the hash of a comic; the comic itself stands for its hash.
  datatype MutationId = Text(text: string) | V1Write(comic: Comic) | Bootstrap(comic: Comic)

  datatype Mutation = Mutation(id: MutationId, createdAt: int, changes: seq<Change>)

  datatype Request = Request(requestId: string, deviceId: string, serverId: string, cursor: nat,
                             limit: int, mutations: seq<Mutation>)

  // One row of v2_change_groups; its revision is its position in the log, counted from one.
  datatype Group = Group(mutationId: MutationId, changes: seq<Change>)

  // A row of v2_mutations; the payload stands for its hash.
  datatype Receipt = Receipt(payload: Mutation, revision: nat)

  datatype AckStatus = Applied | Duplicate

  datatype Ack = Ack(mutationId: MutationId, revision: nat, status: AckStatus)

  datatype PageGroup = PageGroup(revision: nat, mutationId: MutationId, changes: seq<Change>)

  datatype Response = Response(requestId: string, serverTime: nat, nextCursor: nat, hasMore: bool,
                               acks: seq<Ack>, groups: seq<PageGroup>)

  datatype SyncError = InvalidRequest | ServerMismatch | RequestIdReused | CursorInvalid
                     | MutationIdReused | MutationTooLarge | ChangeGroupTooLarge | V1ReadOnly
                     | InternalError

  // What the model takes from outside: SHA-256 in hexadecimal, and the number of bytes one
  // change takes in canonical JSON.
  datatype Env = Env(digest: string -> string, changeBytes: Change -> nat)

  const MAX_V2_MUTATIONS := 100
  const MAX_V2_CHANGES := 500
  const MAX_V2_LIMIT := 100
  const MAX_V2_RESPONSE_BYTES := 6 * 1024 * 1024
  const MAX_V2_GROUP_BYTES := 5 * 1024 * 1024
  const MAX_V2_REQUEST_CACHE := 1000
  const MAX_V2_REQUEST_CACHE_BYTES := 32 * 1024 * 1024
  const V2_REQUEST_CACHE_TTL_MS := 7 * 24 * 60 * 60 * 1000

  function TotalChanges(ms: seq<Mutation>): nat {
    if ms == [] then 0 else TotalChanges(ms[..|ms| - 1]) + |ms[|ms| - 1].changes|
  }

  predicate ValidMutationId(id: MutationId) {
    id.Text? ==> IsIdentifier(id.text, 128)
  }

  predicate ValidMutation(m: Mutation) {
    && ValidMutationId(m.id) && 0 <= m.createdAt <= MAX_INT64
    && 1 <= |m.changes| <= MAX_V2_CHANGES
    && forall i :: 0 <= i < |m.changes| ==> ValidChange(m.changes[i])
  }

  // validate_v2_request
  predicate ValidRequest(r: Request) {
    && IsIdentifier(r.requestId, 128) && IsIdentifier(r.deviceId, 128)
    && (r.serverId != "" ==> IsIdentifier(r.serverId, 128))
    && 1 <= r.limit <= MAX_V2_LIMIT && |r.mutations| <= MAX_V2_MUTATIONS
    && TotalChanges(r.mutations) <= MAX_V2_CHANGES
    && (forall i :: 0 <= i < |r.mutations| ==> ValidMutation(r.mutations[i]))
    && (forall i, j :: 0 <= i < j < |r.mutations| ==> r.mutations[i].id != r.mutations[j].id)
  }
}
