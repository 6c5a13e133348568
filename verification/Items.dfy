/** Memory items: what callers hand in, what the table stores, and the rules an item must meet. */
module Items {
  import opened Wrappers
  import opened Text
  import Json
  import Scope

  type ItemId = nat

  /** `metadata` is any JSON value; validation insists on an object. */
  datatype NewItem = NewItem(
    content: string,
    supersedes: Option<ItemId>,
    tags: seq<string>,
    source: Option<string>,
    metadata: Json.Value,
    externalId: Option<string>,
    scope: Option<string>)

  /** A stored item; `createdAt` is in nanoseconds since 1970-01-01. */
  datatype Row = Row(
    id: ItemId,
    content: string,
    createdAt: int,
    supersedes: Option<ItemId>,
    tags: seq<string>,
    source: Option<string>,
    metadata: Json.Value,
    externalId: Option<string>,
    scope: Option<string>)

  datatype Error =
    | ReadOnly
    | Invalid(field: string)
    | SupersedesNotFound(id: ItemId)
    | ExternalIdConflict(key: string)
    | NotFound(id: ItemId)
    | AmbiguousLatest(candidates: seq<ItemId>)
    | Sqlite

  const MAX_CONTENT_BYTES := 1_048_576
  const MAX_TAG_BYTES := 64
  const MAX_SOURCE_BYTES := 256
  const MAX_EXTERNAL_ID_BYTES := 512

  /******* Tags *******/

  predicate IsTag(tag: string) {
    tag != "" && Bytes(tag) <= MAX_TAG_BYTES && '\0' !in tag
  }

  /** Strictly increasing, hence sorted and without repeats. */
  predicate Increasing(tags: seq<string>) {
    forall i, j :: 0 <= i < j < |tags| ==> Less(tags[i], tags[j])
  }

  /** `tag` put in its place in a strictly increasing list, unless it is there. */
  function InsertTag(tags: seq<string>, tag: string): seq<string> {
    if tags == [] then [tag]
    else if tag == tags[0] then tags
    else if Less(tag, tags[0]) then [tag] + tags
    else [tags[0]] + InsertTag(tags[1..], tag)
  }

  /** `sort` then `dedup`. */
  function SortedTags(tags: seq<string>): seq<string> {
    if tags == [] then [] else InsertTag(SortedTags(tags[1..]), tags[0])
  }

  lemma {:induction false} InsertTagMeaning(tags: seq<string>, tag: string)
    requires Increasing(tags)
    ensures Increasing(InsertTag(tags, tag))
    ensures forall t :: t in InsertTag(tags, tag) <==> t in tags || t == tag
  {
    if tags != [] && tag != tags[0] {
      var rest := tags[1..];
      LessTotal(tag, tags[0]);
      assert tags == [tags[0]] + rest;
      if Less(tag, tags[0]) {
        forall j | 0 <= j < |tags| ensures Less(tag, tags[j]) {
          if j > 0 { LessTransitive(tag, tags[0], tags[j]); }
        }
      } else {
        InsertTagMeaning(rest, tag);
        var inserted := InsertTag(rest, tag);
        forall j | 0 <= j < |inserted| ensures Less(tags[0], inserted[j]) {
          assert inserted[j] in inserted;
          if inserted[j] in rest {
            var k :| 0 <= k < |rest| && rest[k] == inserted[j];
            assert tags[k + 1] == rest[k];
          }
        }
      }
    }
  }

  /** Stored tags are the given ones, sorted, each once. */
  lemma {:induction false} SortedTagsMeaning(tags: seq<string>)
    ensures Increasing(SortedTags(tags))
    ensures forall t :: t in SortedTags(tags) <==> t in tags
  {
    if tags != [] {
      SortedTagsMeaning(tags[1..]);
      InsertTagMeaning(SortedTags(tags[1..]), tags[0]);
      assert tags == [tags[0]] + tags[1..];
    }
  }

  /******* Validation *******/

  datatype Validated = Validated(tags: seq<string>, scope: Option<string>)

  /** `validate`: the first rule broken, or the normalised tags and scope. */
  function Validate(item: NewItem): Result<Validated, Error> {
    if item.content == "" || Bytes(item.content) > MAX_CONTENT_BYTES then Err(Invalid("content"))
    else if item.source.Some? && Bytes(item.source.value) > MAX_SOURCE_BYTES then Err(Invalid("source"))
    else if item.externalId.Some? && !IsExternalId(item.externalId.value) then Err(Invalid("external_id"))
    else if !item.metadata.Object? then Err(Invalid("metadata"))
    else if exists i :: 0 <= i < |item.tags| && !IsTag(item.tags[i]) then Err(Invalid("tags"))
    else if item.scope.None? then Ok(Validated(SortedTags(item.tags), None))
    else
      match Scope.Normalise(item.scope.value)
      case Err(_) => Err(Invalid("scope"))
      case Ok(scope) => Ok(Validated(SortedTags(item.tags), Some(scope)))
  }

  predicate IsExternalId(key: string) {
    key != "" && Bytes(key) <= MAX_EXTERNAL_ID_BYTES && '\0' !in key
  }

  predicate IsValid(item: NewItem) {
    Validate(item).Ok?
  }

  /** The table's own check on content: SQLite's `length` counts up to the first NUL, so it must not lead. */
  predicate IsStorable(content: string) {
    content != "" && content[0] != '\0'
  }

  /** `metadata.sha256`, when the metadata is an object that has one and it is a string. */
  function Sha256(metadata: Json.Value): Option<string> {
    match Json.Field(metadata, "sha256")
    case Some(Str(text)) => Some(text)
    case _ => None
  }

  /******* Identifiers *******/

  /** `as_millisecond`: truncation towards zero. */
  function Milliseconds(nanoseconds: int): int {
    if nanoseconds >= 0 then nanoseconds / 1_000_000 else -((-nanoseconds) / 1_000_000)
  }

  const RANDOM_RANGE: nat := 0x1_0000_0000_0000_0000_0000
  const TIME_RANGE: nat := 0x1_0000_0000_0000

  /** `mint_raw_ulid`: 48 bits of time over 80 random bits; a clock before 1970 is refused. */
  function MintId(now: int, random: nat): Option<ItemId> {
    if Milliseconds(now) < 0 then None
    else Some((Milliseconds(now) % TIME_RANGE) * RANDOM_RANGE + random % RANDOM_RANGE)
  }

  function RowOf(item: NewItem, validated: Validated, id: ItemId, now: int): Row {
    Row(id, item.content, now, item.supersedes, validated.tags, item.source, item.metadata, item.externalId,
        validated.scope)
  }

  /******* What the rules and the stored row come to *******/

  /**
   An item is valid exactly when its content is 1 byte to 1 MiB, its source at most 256 bytes, its external
   id 1 to 512 bytes without NUL, its metadata an object, each tag 1 to 64 bytes without NUL, and its scope
   a path within 514 bytes that is normal once slashes are trimmed and letters lowered.
   */
  lemma {:induction false} ValidItems(item: NewItem)
    ensures IsValid(item) <==>
              && 1 <= Bytes(item.content) <= 1_048_576
              && (item.source.Some? ==> Bytes(item.source.value) <= 256)
              && (item.externalId.Some? ==> 1 <= Bytes(item.externalId.value) <= 512 && '\0' !in item.externalId.value)
              && item.metadata.Object?
              && (forall tag :: tag in item.tags ==> 1 <= Bytes(tag) <= 64 && '\0' !in tag)
              && (item.scope.Some? ==>
                    && Bytes(item.scope.value) <= 514
                    && Scope.IsNormal(Scope.Lower(Scope.TrimSlashes(item.scope.value))))
  {
    if item.scope.Some? { Scope.ValidationMeaning(item.scope.value); }
    if !IsValid(item) && (exists i :: 0 <= i < |item.tags| && !IsTag(item.tags[i])) {
      var i :| 0 <= i < |item.tags| && !IsTag(item.tags[i]);
      assert item.tags[i] in item.tags;
    }
    forall tag | tag in item.tags && (forall i :: 0 <= i < |item.tags| ==> IsTag(item.tags[i])) ensures IsTag(tag) {
      var i :| 0 <= i < |item.tags| && item.tags[i] == tag;
    }
  }

  /** The rule an invalid item is refused for is the first one it breaks, in this order. */
  lemma {:induction false} FirstRuleBroken(item: NewItem)
    requires !IsValid(item)
    ensures var content := item.content == "" || Bytes(item.content) > 1_048_576;
            var source := item.source.Some? && Bytes(item.source.value) > 256;
            var key := item.externalId.Some?
                       && (item.externalId.value == "" || Bytes(item.externalId.value) > 512
                           || '\0' in item.externalId.value);
            var tags := exists tag :: tag in item.tags && (tag == "" || Bytes(tag) > 64 || '\0' in tag);
            Validate(item)
            == Err(Invalid(if content then "content"
                           else if source then "source"
                           else if key then "external_id"
                           else if !item.metadata.Object? then "metadata"
                           else if tags then "tags"
                           else "scope"))
  {
    if i :| 0 <= i < |item.tags| && !IsTag(item.tags[i]) { assert item.tags[i] in item.tags; }
    if tag :| tag in item.tags && (tag == "" || Bytes(tag) > 64 || '\0' in tag) {
      var i :| 0 <= i < |item.tags| && item.tags[i] == tag;
      assert !IsTag(item.tags[i]);
    }
  }

  /** A row that keeps what an item says: its tags in increasing order, its scope in normal form. */
  ghost predicate RecordsItem(row: Row, item: NewItem) {
    && row.content == item.content && row.source == item.source && row.metadata == item.metadata
    && row.externalId == item.externalId
    && Increasing(row.tags) && (forall tag :: tag in row.tags <==> tag in item.tags)
    && match item.scope
       case None => row.scope == None
       case Some(raw) =>
         row.scope == Some(Scope.Lower(Scope.TrimSlashes(raw))) && Scope.IsNormal(row.scope.value)
  }

  lemma {:induction false} RowRecords(item: NewItem, validated: Validated, id: ItemId, now: int)
    requires Validate(item) == Ok(validated)
    ensures RecordsItem(RowOf(item, validated, id, now), item)
    ensures var row := RowOf(item, validated, id, now);
            row.id == id && row.createdAt == now && row.supersedes == item.supersedes
  {
    SortedTagsMeaning(item.tags);
    if item.scope.Some? { Scope.ValidationMeaning(item.scope.value); }
  }

  /**
   Minting: refused exactly before 1970, to the millisecond; otherwise the lower 80 bits are random and
   those above them the milliseconds, modulo 2 to the 48, so until they wrap a later millisecond makes a
   greater id.
   */
  lemma {:induction false} MintMeaning(now: int, random: nat)
    ensures MintId(now, random).None? <==> now <= -1_000_000
    ensures MintId(now, random).Some? ==>
              var id := MintId(now, random).value;
              && id % 1_208_925_819_614_629_174_706_176 == random % 1_208_925_819_614_629_174_706_176
              && id / 1_208_925_819_614_629_174_706_176
                 == (if now < 0 then 0 else now / 1_000_000) % 281_474_976_710_656
  {
    if MintId(now, random).Some? {
      SplitOfSum(Milliseconds(now) % TIME_RANGE, random % RANDOM_RANGE);
    }
  }

  lemma {:induction false} SplitOfSum(high: nat, low: nat)
    requires low < RANDOM_RANGE
    ensures (high * RANDOM_RANGE + low) / RANDOM_RANGE == high && (high * RANDOM_RANGE + low) % RANDOM_RANGE == low
  {
  }

  lemma {:induction false} LaterIdsAreGreater(a: int, b: int, first: nat, second: nat)
    requires 0 <= a && a / 1_000_000 < b / 1_000_000 < 281_474_976_710_656
    ensures MintId(a, first).Some? && MintId(b, second).Some?
    ensures MintId(a, first).value < MintId(b, second).value
  {
    assert (Milliseconds(a) + 1) * RANDOM_RANGE <= Milliseconds(b) * RANDOM_RANGE;
  }
}
