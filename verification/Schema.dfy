/**
 The on-disk schema, the transactions that create or migrate it, and the
 single-process opening sequence built from them.

 A database file is a catalog (tables with ordered columns and constraints, and
 indexes) together with the rows of the `singularmem_meta` table. DDL fails
 exactly when SQLite would refuse it: a table, index or column that already
 exists, or one that is missing.
 */
module Schema {
  import opened Wrappers

  /******* Catalogs and DDL *******/

  datatype TableName = Meta | Items | ItemTags | Entities | Facts

  datatype ColumnName =
    | Key | Value | Id | Content | CreatedAt | Supersedes | Source | Metadata | ExternalId | Scope
    | ItemId | Tag | Name | NormalisedName | Kind | SubjectId | Predicate | ObjectId | ObjectValue
    | ValidFrom | ValidTo | Confidence | SourceItemId | RecordedAt

  datatype ColumnType = TEXT | REAL

  datatype Column = Column(name: ColumnName, kind: ColumnType, notNull: bool)

  datatype OnDelete = Refuse | Cascade

  /** `deferred` is `DEFERRABLE INITIALLY DEFERRED`. */
  datatype Constraint =
    | PrimaryKey(columns: seq<ColumnName>)
    | Default(column: ColumnName, text: string)
    | ForeignKey(column: ColumnName, references: TableName, deferred: bool, onDelete: OnDelete)
    | Check(rule: CheckRule)

  datatype CheckRule =
    | ContentNonEmpty | ContentCapped | MetadataIsObject | NameNonEmpty
    | ExactlyOneObject | ConfidenceInUnit | ValidityOrdered

  /** A `STRICT` table. */
  datatype Table = Table(columns: seq<Column>, constraints: seq<Constraint>)

  predicate HasColumn(table: Table, name: ColumnName) {
    exists i :: 0 <= i < |table.columns| && table.columns[i].name == name
  }

  datatype IndexName =
    | ItemsCreatedAt | ItemsSupersedes | ItemTagsTag | ItemsExternalId | ItemsScope
    | EntitiesIdentity | FactsSubject | FactsObject | FactsPredicate | FactsSupersedes | FactsScope

  /** `notNullOnly` is the partial-index clause `WHERE column IS NOT NULL`. */
  datatype Index = Index(table: TableName, column: ColumnName, unique: bool, notNullOnly: bool)

  datatype Statement =
    | CreateTable(table: TableName, definition: Table)
    | CreateIndex(index: IndexName, definition_: Index)
    | AddColumn(to: TableName, column: Column)

  datatype Catalog = Catalog(tables: map<TableName, Table>, indexes: map<IndexName, Index>)

  const EMPTY_CATALOG := Catalog(map[], map[])

  function Execute(statement: Statement, catalog: Catalog): Option<Catalog> {
    match statement
    case CreateTable(t, definition) =>
      if t in catalog.tables then None
      else Some(catalog.(tables := catalog.tables[t := definition]))
    case CreateIndex(i, definition) =>
      if i in catalog.indexes || definition.table !in catalog.tables
         || !HasColumn(catalog.tables[definition.table], definition.column) then None
      else Some(catalog.(indexes := catalog.indexes[i := definition]))
    case AddColumn(t, column) =>
      if t !in catalog.tables || column.notNull || HasColumn(catalog.tables[t], column.name) then None
      else
        var table := catalog.tables[t];
        Some(catalog.(tables := catalog.tables[t := table.(columns := table.columns + [column])]))
  }

  /******* The database file and the writes of a transaction *******/

  datatype MetaKey = FormatVersion | StoreCreatedAt

  datatype Database = Database(catalog: Catalog, meta: map<MetaKey, string>)

  const FORMAT_VERSION := "4"

  /** `None` when the meta table, or the version row in it, is missing. */
  function ReadFormatVersion(db: Database): (version: Option<string>) {
    if Meta in db.catalog.tables && FormatVersion in db.meta then Some(db.meta[FormatVersion]) else None
  }

  /** One statement of a schema transaction. */
  datatype Action =
    | Ddl(statement: Statement)
    | InsertMeta(key: MetaKey, value: string)
    | UpdateMeta(key: MetaKey, value: string)

  function Perform(action: Action, db: Database): Option<Database> {
    match action
    case Ddl(statement) =>
      (match Execute(statement, db.catalog)
       case None => None
       case Some(catalog) => Some(db.(catalog := catalog)))
    case InsertMeta(key, value) =>
      if Meta !in db.catalog.tables || key in db.meta then None
      else Some(db.(meta := db.meta[key := value]))
    case UpdateMeta(key, value) =>
      if Meta !in db.catalog.tables then None
      else if key !in db.meta then Some(db)
      else Some(db.(meta := db.meta[key := value]))
  }

  function PerformAll(actions: seq<Action>, db: Database): Option<Database> {
    if actions == [] then Some(db)
    else
      match Perform(actions[0], db)
      case None => None
      case Some(next) => PerformAll(actions[1..], next)
  }

  lemma {:induction false} PerformAllAppend(first: seq<Action>, rest: seq<Action>, db: Database)
    ensures PerformAll(first + rest, db)
         == (match PerformAll(first, db)
             case None => None
             case Some(middle) => PerformAll(rest, middle))
  {
    if first == [] {
      assert first + rest == rest;
    } else {
      assert (first + rest)[1..] == first[1..] + rest;
      match Perform(first[0], db)
      case None =>
      case Some(next) => PerformAllAppend(first[1..], rest, next);
    }
  }

  /******* What each format version looks like *******/

  const META_TABLE := Table([Column(Key, TEXT, true), Column(Value, TEXT, true)], [PrimaryKey([Key])])

  const ITEM_COLUMNS := [
    Column(Id, TEXT, true), Column(Content, TEXT, true), Column(CreatedAt, TEXT, true),
    Column(Supersedes, TEXT, false), Column(Source, TEXT, false), Column(Metadata, TEXT, true)]

  const ITEM_CONSTRAINTS := [
    PrimaryKey([Id]), Default(Metadata, "{}"), ForeignKey(Supersedes, Items, true, Refuse),
    Check(ContentNonEmpty), Check(ContentCapped), Check(MetadataIsObject)]

  const ITEM_TAGS_TABLE := Table(
    [Column(ItemId, TEXT, true), Column(Tag, TEXT, true)],
    [PrimaryKey([ItemId, Tag]), ForeignKey(ItemId, Items, false, Cascade)])

  const ENTITIES_TABLE := Table(
    [Column(Id, TEXT, true), Column(Name, TEXT, true), Column(NormalisedName, TEXT, true),
     Column(Kind, TEXT, false), Column(CreatedAt, TEXT, true)],
    [PrimaryKey([Id]), Check(NameNonEmpty)])

  const FACTS_TABLE := Table(
    [Column(Id, TEXT, true), Column(SubjectId, TEXT, true), Column(Predicate, TEXT, true),
     Column(ObjectId, TEXT, false), Column(ObjectValue, TEXT, false),
     Column(ValidFrom, TEXT, false), Column(ValidTo, TEXT, false), Column(Confidence, REAL, true),
     Column(SourceItemId, TEXT, false), Column(Scope, TEXT, false), Column(Supersedes, TEXT, false),
     Column(RecordedAt, TEXT, true)],
    [PrimaryKey([Id]), Default(Confidence, "1.0"),
     ForeignKey(SubjectId, Entities, false, Refuse), ForeignKey(ObjectId, Entities, false, Refuse),
     ForeignKey(SourceItemId, Items, true, Refuse), ForeignKey(Supersedes, Facts, true, Refuse),
     Check(ExactlyOneObject), Check(ConfidenceInUnit), Check(ValidityOrdered)])

  const CATALOG_V1 := Catalog(
    map[Meta := META_TABLE,
        Items := Table(ITEM_COLUMNS, ITEM_CONSTRAINTS),
        ItemTags := ITEM_TAGS_TABLE],
    map[ItemsCreatedAt := Index(Items, CreatedAt, false, false),
        ItemsSupersedes := Index(Items, Supersedes, false, true),
        ItemTagsTag := Index(ItemTags, Tag, false, false)])

  const CATALOG_V2 := Catalog(
    map[Meta := META_TABLE,
        Items := Table(ITEM_COLUMNS + [Column(ExternalId, TEXT, false)], ITEM_CONSTRAINTS),
        ItemTags := ITEM_TAGS_TABLE],
    map[ItemsCreatedAt := Index(Items, CreatedAt, false, false),
        ItemsSupersedes := Index(Items, Supersedes, false, true),
        ItemTagsTag := Index(ItemTags, Tag, false, false),
        ItemsExternalId := Index(Items, ExternalId, true, true)])

  const CATALOG_V3 := Catalog(
    map[Meta := META_TABLE,
        Items := Table(ITEM_COLUMNS + [Column(ExternalId, TEXT, false), Column(Scope, TEXT, false)], ITEM_CONSTRAINTS),
        ItemTags := ITEM_TAGS_TABLE],
    map[ItemsCreatedAt := Index(Items, CreatedAt, false, false),
        ItemsSupersedes := Index(Items, Supersedes, false, true),
        ItemTagsTag := Index(ItemTags, Tag, false, false),
        ItemsExternalId := Index(Items, ExternalId, true, true),
        ItemsScope := Index(Items, Scope, false, true)])

  const CATALOG_V4 := Catalog(
    map[Meta := META_TABLE,
        Items := Table(ITEM_COLUMNS + [Column(ExternalId, TEXT, false), Column(Scope, TEXT, false)], ITEM_CONSTRAINTS),
        ItemTags := ITEM_TAGS_TABLE,
        Entities := ENTITIES_TABLE,
        Facts := FACTS_TABLE],
    map[ItemsCreatedAt := Index(Items, CreatedAt, false, false),
        ItemsSupersedes := Index(Items, Supersedes, false, true),
        ItemTagsTag := Index(ItemTags, Tag, false, false),
        ItemsExternalId := Index(Items, ExternalId, true, true),
        ItemsScope := Index(Items, Scope, false, true),
        EntitiesIdentity := Index(Entities, NormalisedName, true, false),
        FactsSubject := Index(Facts, SubjectId, false, false),
        FactsObject := Index(Facts, ObjectId, false, true),
        FactsPredicate := Index(Facts, Predicate, false, false),
        FactsSupersedes := Index(Facts, Supersedes, false, true),
        FactsScope := Index(Facts, Scope, false, true)])

  /******* The DDL of each format version, statement by statement *******/

  /** The DDL a store at format version 1 was created with. */
  const DDL_V1 := [
    CreateTable(Meta, Table([Column(Key, TEXT, true), Column(Value, TEXT, true)], [PrimaryKey([Key])])),
    CreateTable(Items, Table(
                  [Column(Id, TEXT, true), Column(Content, TEXT, true), Column(CreatedAt, TEXT, true),
                   Column(Supersedes, TEXT, false), Column(Source, TEXT, false), Column(Metadata, TEXT, true)],
                  [PrimaryKey([Id]), Default(Metadata, "{}"), ForeignKey(Supersedes, Items, true, Refuse),
                   Check(ContentNonEmpty), Check(ContentCapped), Check(MetadataIsObject)])),
    CreateTable(ItemTags, Table(
                  [Column(ItemId, TEXT, true), Column(Tag, TEXT, true)],
                  [PrimaryKey([ItemId, Tag]), ForeignKey(ItemId, Items, false, Cascade)])),
    CreateIndex(ItemsCreatedAt, Index(Items, CreatedAt, false, false)),
    CreateIndex(ItemsSupersedes, Index(Items, Supersedes, false, true)),
    CreateIndex(ItemTagsTag, Index(ItemTags, Tag, false, false))]

  const MIGRATE_1_TO_2_DDL := [
    AddColumn(Items, Column(ExternalId, TEXT, false)),
    CreateIndex(ItemsExternalId, Index(Items, ExternalId, true, true))]

  const MIGRATE_2_TO_3_DDL := [
    AddColumn(Items, Column(Scope, TEXT, false)),
    CreateIndex(ItemsScope, Index(Items, Scope, false, true))]

  const MIGRATE_3_TO_4_DDL := [
    CreateTable(Entities, Table(
                  [Column(Id, TEXT, true), Column(Name, TEXT, true), Column(NormalisedName, TEXT, true),
                   Column(Kind, TEXT, false), Column(CreatedAt, TEXT, true)],
                  [PrimaryKey([Id]), Check(NameNonEmpty)])),
    CreateIndex(EntitiesIdentity, Index(Entities, NormalisedName, true, false)),
    CreateTable(Facts, Table(
                  [Column(Id, TEXT, true), Column(SubjectId, TEXT, true), Column(Predicate, TEXT, true),
                   Column(ObjectId, TEXT, false), Column(ObjectValue, TEXT, false),
                   Column(ValidFrom, TEXT, false), Column(ValidTo, TEXT, false), Column(Confidence, REAL, true),
                   Column(SourceItemId, TEXT, false), Column(Scope, TEXT, false), Column(Supersedes, TEXT, false),
                   Column(RecordedAt, TEXT, true)],
                  [PrimaryKey([Id]), Default(Confidence, "1.0"),
                   ForeignKey(SubjectId, Entities, false, Refuse), ForeignKey(ObjectId, Entities, false, Refuse),
                   ForeignKey(SourceItemId, Items, true, Refuse), ForeignKey(Supersedes, Facts, true, Refuse),
                   Check(ExactlyOneObject), Check(ConfidenceInUnit), Check(ValidityOrdered)])),
    CreateIndex(FactsSubject, Index(Facts, SubjectId, false, false)),
    CreateIndex(FactsObject, Index(Facts, ObjectId, false, true)),
    CreateIndex(FactsPredicate, Index(Facts, Predicate, false, false)),
    CreateIndex(FactsSupersedes, Index(Facts, Supersedes, false, true)),
    CreateIndex(FactsScope, Index(Facts, Scope, false, true))]

  /** The self-contained DDL a fresh store is created with today. */
  const DDL_V4 := [
    CreateTable(Meta, Table([Column(Key, TEXT, true), Column(Value, TEXT, true)], [PrimaryKey([Key])])),
    CreateTable(Items, Table(
                  [Column(Id, TEXT, true), Column(Content, TEXT, true), Column(CreatedAt, TEXT, true),
                   Column(Supersedes, TEXT, false), Column(Source, TEXT, false), Column(Metadata, TEXT, true),
                   Column(ExternalId, TEXT, false), Column(Scope, TEXT, false)],
                  [PrimaryKey([Id]), Default(Metadata, "{}"), ForeignKey(Supersedes, Items, true, Refuse),
                   Check(ContentNonEmpty), Check(ContentCapped), Check(MetadataIsObject)])),
    CreateTable(ItemTags, Table(
                  [Column(ItemId, TEXT, true), Column(Tag, TEXT, true)],
                  [PrimaryKey([ItemId, Tag]), ForeignKey(ItemId, Items, false, Cascade)])),
    CreateIndex(ItemsCreatedAt, Index(Items, CreatedAt, false, false)),
    CreateIndex(ItemsSupersedes, Index(Items, Supersedes, false, true)),
    CreateIndex(ItemTagsTag, Index(ItemTags, Tag, false, false)),
    CreateIndex(ItemsExternalId, Index(Items, ExternalId, true, true)),
    CreateIndex(ItemsScope, Index(Items, Scope, false, true)),
    CreateTable(Entities, Table(
                  [Column(Id, TEXT, true), Column(Name, TEXT, true), Column(NormalisedName, TEXT, true),
                   Column(Kind, TEXT, false), Column(CreatedAt, TEXT, true)],
                  [PrimaryKey([Id]), Check(NameNonEmpty)])),
    CreateIndex(EntitiesIdentity, Index(Entities, NormalisedName, true, false)),
    CreateTable(Facts, Table(
                  [Column(Id, TEXT, true), Column(SubjectId, TEXT, true), Column(Predicate, TEXT, true),
                   Column(ObjectId, TEXT, false), Column(ObjectValue, TEXT, false),
                   Column(ValidFrom, TEXT, false), Column(ValidTo, TEXT, false), Column(Confidence, REAL, true),
                   Column(SourceItemId, TEXT, false), Column(Scope, TEXT, false), Column(Supersedes, TEXT, false),
                   Column(RecordedAt, TEXT, true)],
                  [PrimaryKey([Id]), Default(Confidence, "1.0"),
                   ForeignKey(SubjectId, Entities, false, Refuse), ForeignKey(ObjectId, Entities, false, Refuse),
                   ForeignKey(SourceItemId, Items, true, Refuse), ForeignKey(Supersedes, Facts, true, Refuse),
                   Check(ExactlyOneObject), Check(ConfidenceInUnit), Check(ValidityOrdered)])),
    CreateIndex(FactsSubject, Index(Facts, SubjectId, false, false)),
    CreateIndex(FactsObject, Index(Facts, ObjectId, false, true)),
    CreateIndex(FactsPredicate, Index(Facts, Predicate, false, false)),
    CreateIndex(FactsSupersedes, Index(Facts, Supersedes, false, true)),
    CreateIndex(FactsScope, Index(Facts, Scope, false, true))]

  /** Level 0 is an empty file; levels 1 to 4 are the format versions. */
  type Level = n: nat | n <= 4

  function CatalogAt(level: Level): Catalog {
    if level == 0 then EMPTY_CATALOG
    else if level == 1 then CATALOG_V1
    else if level == 2 then CATALOG_V2
    else if level == 3 then CATALOG_V3
    else CATALOG_V4
  }

  function VersionText(level: Level): string
    requires level != 0
  {
    if level == 1 then "1" else if level == 2 then "2" else if level == 3 then "3" else "4"
  }

  /** The file holds exactly the schema of the version it records, and records when it was created. */
  predicate IsAt(db: Database, level: Level) {
    && db.catalog == CatalogAt(level)
    && (level == 0 ==> db.meta == map[])
    && (level != 0 ==> db.meta.Keys == {FormatVersion, StoreCreatedAt} && db.meta[FormatVersion] == VersionText(level))
  }

  /** The recorded version determines the level, so a file is at no two levels. */
  lemma VersionGivesLevel(db: Database, level: Level)
    requires IsAt(db, level)
    ensures ReadFormatVersion(db) == if level == 0 then None else Some(VersionText(level))
    ensures forall other: Level :: IsAt(db, other) ==> other == level
  {
    assert Meta !in EMPTY_CATALOG.tables;
    assert Meta in CATALOG_V1.tables && Meta in CATALOG_V2.tables && Meta in CATALOG_V3.tables;
    assert Meta in CATALOG_V4.tables;
    assert "1"[0] == '1' && "2"[0] == '2' && "3"[0] == '3' && "4"[0] == '4';
  }

  /******* Transactions as data *******/

  /** One `BEGIN IMMEDIATE` transaction of the opening sequence. */
  datatype Task =
    | Bootstrap(createdAt: string)
    | Migration(from: string, to: string, ddl: seq<Statement>)

  const MIGRATE_1_TO_2 := Migration("1", "2", MIGRATE_1_TO_2_DDL)
  const MIGRATE_2_TO_3 := Migration("2", "3", MIGRATE_2_TO_3_DDL)
  const MIGRATE_3_TO_4 := Migration("3", "4", MIGRATE_3_TO_4_DDL)

  /** The version check repeated after the write lock is held. */
  predicate Guard(task: Task, db: Database) {
    match task
    case Bootstrap(_) => ReadFormatVersion(db) == None
    case Migration(from, _, _) => ReadFormatVersion(db) == Some(from)
  }

  function DdlActions(statements: seq<Statement>): (actions: seq<Action>)
    ensures |actions| == |statements|
    ensures forall i :: 0 <= i < |actions| ==> actions[i] == Ddl(statements[i])
  {
    seq(|statements|, i requires 0 <= i < |statements| => Ddl(statements[i]))
  }

  function Actions(task: Task): seq<Action> {
    match task
    case Bootstrap(createdAt) =>
      DdlActions(DDL_V4) + [InsertMeta(FormatVersion, FORMAT_VERSION), InsertMeta(StoreCreatedAt, createdAt)]
    case Migration(_, to, ddl) => DdlActions(ddl) + [UpdateMeta(FormatVersion, to)]
  }

  datatype Error =
    | SqliteFailure
    | MigrationFailure(from: string)
    | UnsupportedFormatVersion(found: string)
    | MissingFile

  function FailureOf(task: Task): Error {
    match task
    case Bootstrap(_) => SqliteFailure
    case Migration(from, _, _) => MigrationFailure(from)
  }

  /** What a whole transaction does when nothing but its own statements can fail. */
  function RunTask(task: Task, db: Database): Result<Database, Error> {
    if !Guard(task, db) then Ok(db)
    else
      match PerformAll(Actions(task), db)
      case None => Err(FailureOf(task))
      case Some(next) => Ok(next)
  }

  lemma {:induction false} PerformOneMore(actions: seq<Action>, k: nat, db: Database)
    requires k < |actions|
    ensures PerformAll(actions[..k + 1], db)
         == (match PerformAll(actions[..k], db)
             case None => None
             case Some(middle) => Perform(actions[k], middle))
  {
    assert actions[..k + 1] == actions[..k] + [actions[k]];
    PerformAllAppend(actions[..k], [actions[k]], db);
    match PerformAll(actions[..k], db)
    case None =>
    case Some(middle) =>
      match Perform(actions[k], middle)
      case None =>
      case Some(next) => assert PerformAll([], next) == Some(next);
  }

  /** Once a prefix of the actions has failed, the whole run fails. */
  lemma {:induction false} ActionsStopAt(actions: seq<Action>, k: nat, db: Database)
    requires k < |actions| && PerformAll(actions[..k + 1], db) == None
    ensures PerformAll(actions, db) == None
  {
    assert actions == actions[..k + 1] + actions[k + 1..];
    PerformAllAppend(actions[..k + 1], actions[k + 1..], db);
  }

  /******* The DDL produces exactly the catalogs above *******/

  function ExecuteAll(statements: seq<Statement>, catalog: Catalog): Option<Catalog> {
    if statements == [] then Some(catalog)
    else
      match Execute(statements[0], catalog)
      case None => None
      case Some(next) => ExecuteAll(statements[1..], next)
  }

  lemma {:induction false} ExecuteAllAppend(first: seq<Statement>, rest: seq<Statement>, catalog: Catalog)
    ensures ExecuteAll(first + rest, catalog)
         == (match ExecuteAll(first, catalog)
             case None => None
             case Some(middle) => ExecuteAll(rest, middle))
  {
    if first == [] {
      assert first + rest == rest;
    } else {
      assert (first + rest)[1..] == first[1..] + rest;
      match Execute(first[0], catalog)
      case None =>
      case Some(next) => ExecuteAllAppend(first[1..], rest, next);
    }
  }

  /** A run of DDL actions is the DDL executed on the catalog. */
  lemma {:induction false} DdlRun(statements: seq<Statement>, db: Database)
    ensures PerformAll(DdlActions(statements), db)
         == (match ExecuteAll(statements, db.catalog)
             case None => None
             case Some(catalog) => Some(db.(catalog := catalog)))
  {
    if statements == [] {
    } else {
      var all := DdlActions(statements);
      assert all[0] == Ddl(statements[0]);
      assert all[1..] == DdlActions(statements[1..]);
      match Execute(statements[0], db.catalog)
      case None =>
      case Some(next) => DdlRun(statements[1..], db.(catalog := next));
    }
  }

  lemma {:induction false} ExecuteFirst(statements: seq<Statement>, catalog: Catalog, next: Catalog)
    requires statements != [] && Execute(statements[0], catalog) == Some(next)
    ensures ExecuteAll(statements, catalog) == ExecuteAll(statements[1..], next)
  {
  }

  lemma {:induction false} TableCreated(ddl: seq<Statement>, catalog: Catalog, next: Catalog)
    requires ddl != [] && ddl[0].CreateTable? && ddl[0].table !in catalog.tables
    requires next == Catalog(catalog.tables[ddl[0].table := ddl[0].definition], catalog.indexes)
    ensures ExecuteAll(ddl, catalog) == ExecuteAll(ddl[1..], next)
  {
    ExecuteFirst(ddl, catalog, next);
  }

  lemma {:induction false} IndexCreated(ddl: seq<Statement>, catalog: Catalog, next: Catalog, k: nat)
    requires ddl != [] && ddl[0].CreateIndex? && ddl[0].index !in catalog.indexes
    requires ddl[0].definition_.table in catalog.tables
    requires var columns := catalog.tables[ddl[0].definition_.table].columns;
             k < |columns| && columns[k].name == ddl[0].definition_.column
    requires next == Catalog(catalog.tables, catalog.indexes[ddl[0].index := ddl[0].definition_])
    ensures ExecuteAll(ddl, catalog) == ExecuteAll(ddl[1..], next)
  {
    ExecuteFirst(ddl, catalog, next);
  }

  /** The two graph tables and the index between them, as the first three statements. */
  lemma {:induction false} GraphTables(ddl: seq<Statement>, c: Catalog)
    requires |ddl| >= 3 && ddl[0] == CreateTable(Entities, ENTITIES_TABLE)
    requires ddl[1] == CreateIndex(EntitiesIdentity, Index(Entities, NormalisedName, true, false))
    requires ddl[2] == CreateTable(Facts, FACTS_TABLE)
    requires Entities !in c.tables && Facts !in c.tables && EntitiesIdentity !in c.indexes
    ensures ExecuteAll(ddl, c)
         == ExecuteAll(ddl[3..], Catalog(c.tables[Entities := ENTITIES_TABLE][Facts := FACTS_TABLE],
                                         c.indexes[EntitiesIdentity := Index(Entities, NormalisedName, true, false)]))
  {
    var c1 := Catalog(c.tables[Entities := ENTITIES_TABLE], c.indexes);
    var c2 := Catalog(c1.tables, c.indexes[EntitiesIdentity := Index(Entities, NormalisedName, true, false)]);
    TableCreated(ddl, c, c1);
    IndexCreated(ddl[1..], c1, c2, 2);
    TableCreated(ddl[2..], c2, Catalog(c2.tables[Facts := FACTS_TABLE], c2.indexes));
  }

  /** Where the indexed columns of facts stand. */
  predicate HasFactColumns(facts: Table) {
    && |facts.columns| == 12
    && facts.columns[1].name == SubjectId && facts.columns[2].name == Predicate && facts.columns[3].name == ObjectId
    && facts.columns[9].name == Scope && facts.columns[10].name == Supersedes
  }

  /** The first three indexes over facts. */
  lemma {:induction false} FactIndexes(ddl: seq<Statement>, c: Catalog)
    requires |ddl| >= 3 && Facts in c.tables && HasFactColumns(c.tables[Facts])
    requires ddl[0] == CreateIndex(FactsSubject, Index(Facts, SubjectId, false, false))
    requires ddl[1] == CreateIndex(FactsObject, Index(Facts, ObjectId, false, true))
    requires ddl[2] == CreateIndex(FactsPredicate, Index(Facts, Predicate, false, false))
    requires FactsSubject !in c.indexes && FactsObject !in c.indexes && FactsPredicate !in c.indexes
    ensures ExecuteAll(ddl, c)
         == ExecuteAll(ddl[3..], Catalog(c.tables,
                                         c.indexes[FactsSubject := Index(Facts, SubjectId, false, false)]
                                         [FactsObject := Index(Facts, ObjectId, false, true)]
                                         [FactsPredicate := Index(Facts, Predicate, false, false)]))
  {
    var c1 := Catalog(c.tables, c.indexes[FactsSubject := Index(Facts, SubjectId, false, false)]);
    var c2 := Catalog(c.tables, c1.indexes[FactsObject := Index(Facts, ObjectId, false, true)]);
    IndexCreated(ddl, c, c1, 1);
    IndexCreated(ddl[1..], c1, c2, 3);
    IndexCreated(ddl[2..], c2,
                 Catalog(c.tables, c2.indexes[FactsPredicate := Index(Facts, Predicate, false, false)]), 2);
  }

  /** The last two, and nothing after them. */
  lemma {:induction false} LastIndexes(ddl: seq<Statement>, c: Catalog)
    requires |ddl| == 2 && Facts in c.tables && HasFactColumns(c.tables[Facts])
    requires ddl[0] == CreateIndex(FactsSupersedes, Index(Facts, Supersedes, false, true))
    requires ddl[1] == CreateIndex(FactsScope, Index(Facts, Scope, false, true))
    requires FactsSupersedes !in c.indexes && FactsScope !in c.indexes
    ensures ExecuteAll(ddl, c)
         == Some(Catalog(c.tables, c.indexes[FactsSupersedes := Index(Facts, Supersedes, false, true)]
                                   [FactsScope := Index(Facts, Scope, false, true)]))
  {
    var c1 := Catalog(c.tables, c.indexes[FactsSupersedes := Index(Facts, Supersedes, false, true)]);
    IndexCreated(ddl, c, c1, 10);
    IndexCreated(ddl[1..], c1, Catalog(c.tables, c1.indexes[FactsScope := Index(Facts, Scope, false, true)]), 9);
  }

  lemma {:induction false} GraphIndexes(ddl: seq<Statement>, c: Catalog)
    requires |ddl| == 5 && Facts in c.tables && HasFactColumns(c.tables[Facts])
    requires ddl[0] == CreateIndex(FactsSubject, Index(Facts, SubjectId, false, false))
    requires ddl[1] == CreateIndex(FactsObject, Index(Facts, ObjectId, false, true))
    requires ddl[2] == CreateIndex(FactsPredicate, Index(Facts, Predicate, false, false))
    requires ddl[3] == CreateIndex(FactsSupersedes, Index(Facts, Supersedes, false, true))
    requires ddl[4] == CreateIndex(FactsScope, Index(Facts, Scope, false, true))
    requires FactsSubject !in c.indexes && FactsObject !in c.indexes && FactsPredicate !in c.indexes
    requires FactsSupersedes !in c.indexes && FactsScope !in c.indexes
    ensures ExecuteAll(ddl, c)
         == Some(Catalog(c.tables,
                         c.indexes[FactsSubject := Index(Facts, SubjectId, false, false)]
                         [FactsObject := Index(Facts, ObjectId, false, true)]
                         [FactsPredicate := Index(Facts, Predicate, false, false)]
                         [FactsSupersedes := Index(Facts, Supersedes, false, true)]
                         [FactsScope := Index(Facts, Scope, false, true)]))
  {
    FactIndexes(ddl, c);
    LastIndexes(ddl[3..], Catalog(c.tables,
                                  c.indexes[FactsSubject := Index(Facts, SubjectId, false, false)]
                                  [FactsObject := Index(Facts, ObjectId, false, true)]
                                  [FactsPredicate := Index(Facts, Predicate, false, false)]));
  }

  lemma GraphCatalog()
    ensures CATALOG_V3.tables[Entities := ENTITIES_TABLE][Facts := FACTS_TABLE] == CATALOG_V4.tables
    ensures CATALOG_V3.indexes[EntitiesIdentity := Index(Entities, NormalisedName, true, false)]
            [FactsSubject := Index(Facts, SubjectId, false, false)][FactsObject := Index(Facts, ObjectId, false, true)]
            [FactsPredicate := Index(Facts, Predicate, false, false)]
            [FactsSupersedes := Index(Facts, Supersedes, false, true)][FactsScope := Index(Facts, Scope, false, true)]
         == CATALOG_V4.indexes
    ensures HasFactColumns(FACTS_TABLE)
  {
  }

  lemma GraphStatements()
    ensures |MIGRATE_3_TO_4_DDL| == 8
    ensures MIGRATE_3_TO_4_DDL[0] == CreateTable(Entities, ENTITIES_TABLE)
    ensures MIGRATE_3_TO_4_DDL[2] == CreateTable(Facts, FACTS_TABLE)
  {
    assert MIGRATE_3_TO_4_DDL[0].definition.columns == ENTITIES_TABLE.columns;
    assert MIGRATE_3_TO_4_DDL[2].definition.columns == FACTS_TABLE.columns;
    assert MIGRATE_3_TO_4_DDL[2].definition.constraints == FACTS_TABLE.constraints;
  }

  /** The graph DDL turns the version 3 catalog into the version 4 one. */
  lemma GraphDdl()
    ensures ExecuteAll(MIGRATE_3_TO_4_DDL, CATALOG_V3) == Some(CATALOG_V4)
  {
    var indexes := CATALOG_V3.indexes[EntitiesIdentity := Index(Entities, NormalisedName, true, false)];
    GraphStatements();
    GraphCatalog();
    GraphTables(MIGRATE_3_TO_4_DDL, CATALOG_V3);
    GraphIndexes(MIGRATE_3_TO_4_DDL[3..], Catalog(CATALOG_V4.tables, indexes));
  }

  lemma ExternalIdDdl()
    ensures ExecuteAll(MIGRATE_1_TO_2_DDL, CATALOG_V1) == Some(CATALOG_V2)
  {
    var middle := CATALOG_V1.(tables := CATALOG_V2.tables);
    assert CATALOG_V1.tables[Items := CATALOG_V2.tables[Items]] == CATALOG_V2.tables;
    ExecuteFirst(MIGRATE_1_TO_2_DDL, CATALOG_V1, middle);
    IndexCreated(MIGRATE_1_TO_2_DDL[1..], middle, CATALOG_V2, 6);
  }

  lemma ScopeDdl()
    ensures ExecuteAll(MIGRATE_2_TO_3_DDL, CATALOG_V2) == Some(CATALOG_V3)
  {
    var middle := CATALOG_V2.(tables := CATALOG_V3.tables);
    assert CATALOG_V2.tables[Items].columns + [Column(Scope, TEXT, false)] == CATALOG_V3.tables[Items].columns;
    assert CATALOG_V2.tables[Items := CATALOG_V3.tables[Items]] == CATALOG_V3.tables;
    ExecuteFirst(MIGRATE_2_TO_3_DDL, CATALOG_V2, middle);
    IndexCreated(MIGRATE_2_TO_3_DDL[1..], middle, CATALOG_V3, 7);
  }

  /** The three item tables, for any column list of `items`. */
  lemma {:induction false} BaseTables(ddl: seq<Statement>, items: Table)
    requires |ddl| >= 3 && ddl[0] == CreateTable(Meta, META_TABLE)
    requires ddl[1] == CreateTable(Items, items) && ddl[2] == CreateTable(ItemTags, ITEM_TAGS_TABLE)
    ensures ExecuteAll(ddl, EMPTY_CATALOG)
         == ExecuteAll(ddl[3..], Catalog(CATALOG_V1.tables[Items := items], map[]))
  {
    var c1 := Catalog(map[Meta := META_TABLE], map[]);
    var c2 := Catalog(map[Meta := META_TABLE, Items := items], map[]);
    var c3 := Catalog(CATALOG_V1.tables[Items := items], map[]);
    assert EMPTY_CATALOG.tables[Meta := META_TABLE] == c1.tables && c1.tables[Items := items] == c2.tables;
    assert c2.tables[ItemTags := ITEM_TAGS_TABLE] == c3.tables;
    TableCreated(ddl, EMPTY_CATALOG, c1);
    TableCreated(ddl[1..], c1, c2);
    TableCreated(ddl[2..], c2, c3);
  }

  /** The three plain indexes over those tables. */
  lemma {:induction false} BaseIndexes(ddl: seq<Statement>, tables: map<TableName, Table>)
    requires |ddl| >= 3 && ddl[0] == CreateIndex(ItemsCreatedAt, Index(Items, CreatedAt, false, false))
    requires ddl[1] == CreateIndex(ItemsSupersedes, Index(Items, Supersedes, false, true))
    requires ddl[2] == CreateIndex(ItemTagsTag, Index(ItemTags, Tag, false, false))
    requires Items in tables && ITEM_COLUMNS <= tables[Items].columns
    requires ItemTags in tables && tables[ItemTags] == ITEM_TAGS_TABLE
    ensures ExecuteAll(ddl, Catalog(tables, map[])) == ExecuteAll(ddl[3..], Catalog(tables, CATALOG_V1.indexes))
  {
    var c0 := Catalog(tables, map[]);
    var c1 := Catalog(tables, map[ItemsCreatedAt := Index(Items, CreatedAt, false, false)]);
    var c2 := Catalog(tables, c1.indexes[ItemsSupersedes := Index(Items, Supersedes, false, true)]);
    var c3 := Catalog(tables, CATALOG_V1.indexes);
    assert tables[Items].columns[2] == ITEM_COLUMNS[2] && tables[Items].columns[3] == ITEM_COLUMNS[3];
    assert c0.indexes[ItemsCreatedAt := Index(Items, CreatedAt, false, false)] == c1.indexes;
    assert c2.indexes[ItemTagsTag := Index(ItemTags, Tag, false, false)] == c3.indexes;
    IndexCreated(ddl, c0, c1, 2);
    IndexCreated(ddl[1..], c1, c2, 3);
    IndexCreated(ddl[2..], c2, c3, 1);
  }

  /** The DDL of a version 1 store builds the version 1 catalog. */
  lemma FirstDdl()
    ensures ExecuteAll(DDL_V1, EMPTY_CATALOG) == Some(CATALOG_V1)
  {
    BaseTables(DDL_V1, CATALOG_V1.tables[Items]);
    assert CATALOG_V1.tables[Items := CATALOG_V1.tables[Items]] == CATALOG_V1.tables;
    BaseIndexes(DDL_V1[3..], CATALOG_V1.tables);
  }

  /** The indexes of the second and third versions. */
  lemma {:induction false} LaterIndexes(ddl: seq<Statement>, tables: map<TableName, Table>)
    requires |ddl| >= 2 && ddl[0] == CreateIndex(ItemsExternalId, Index(Items, ExternalId, true, true))
    requires ddl[1] == CreateIndex(ItemsScope, Index(Items, Scope, false, true))
    requires Items in tables && |tables[Items].columns| == 8
    requires tables[Items].columns[6].name == ExternalId && tables[Items].columns[7].name == Scope
    ensures ExecuteAll(ddl, Catalog(tables, CATALOG_V1.indexes))
         == ExecuteAll(ddl[2..], Catalog(tables, CATALOG_V3.indexes))
  {
    var c6 := Catalog(tables, CATALOG_V1.indexes);
    var c7 := Catalog(tables, CATALOG_V2.indexes);
    assert c6.indexes[ItemsExternalId := Index(Items, ExternalId, true, true)] == c7.indexes;
    assert c7.indexes[ItemsScope := Index(Items, Scope, false, true)] == CATALOG_V3.indexes;
    IndexCreated(ddl, c6, c7, 6);
    IndexCreated(ddl[1..], c7, Catalog(tables, CATALOG_V3.indexes), 7);
  }

  lemma FreshStatements()
    ensures |DDL_V4| == 16 && DDL_V4[0] == CreateTable(Meta, META_TABLE)
    ensures DDL_V4[1] == CreateTable(Items, CATALOG_V3.tables[Items])
    ensures DDL_V4[2] == CreateTable(ItemTags, ITEM_TAGS_TABLE)
  {
    assert DDL_V4[1].definition.columns == CATALOG_V3.tables[Items].columns;
    assert DDL_V4[1].definition.constraints == ITEM_CONSTRAINTS;
  }

  lemma ItemTables()
    ensures CATALOG_V1.tables[Items := CATALOG_V3.tables[Items]] == CATALOG_V3.tables
    ensures ITEM_COLUMNS <= CATALOG_V3.tables[Items].columns && |CATALOG_V3.tables[Items].columns| == 8
    ensures CATALOG_V3.tables[Items].columns[6].name == ExternalId && CATALOG_V3.tables[Items].columns[7].name == Scope
  {
  }

  /** Up to the graph tables the DDL of a fresh store builds what the first two migrations lead to. */
  lemma FreshItemTables()
    ensures ExecuteAll(DDL_V4, EMPTY_CATALOG) == ExecuteAll(DDL_V4[8..], CATALOG_V3)
  {
    FreshStatements();
    ItemTables();
    BaseTables(DDL_V4, CATALOG_V3.tables[Items]);
    BaseIndexes(DDL_V4[3..], CATALOG_V3.tables);
    LaterIndexes(DDL_V4[6..], CATALOG_V3.tables);
  }

  /** The self-contained DDL of a fresh store builds the catalog that three migrations build. */
  lemma FreshDdl()
    ensures ExecuteAll(DDL_V4, EMPTY_CATALOG) == Some(CATALOG_V4)
  {
    FreshItemTables();
    assert DDL_V4[8..] == MIGRATE_3_TO_4_DDL;
    GraphDdl();
  }

  /******* Transactions move a file from one level to the next *******/

  /** The level a transaction leaves a file at, when its guard held at `level`. */
  function TargetLevel(level: Level): (next: Level)
    requires level < 4
  {
    if level == 0 then 4 else level + 1
  }

  /** The transaction for a file at `level`; the creation time matters only to the bootstrap. */
  function TaskFor(level: Level, createdAt: string): Task
    requires level < 4
  {
    if level == 0 then Bootstrap(createdAt)
    else if level == 1 then MIGRATE_1_TO_2
    else if level == 2 then MIGRATE_2_TO_3
    else MIGRATE_3_TO_4
  }

  lemma {:induction false} BootstrapActions(db: Database, createdAt: string)
    requires IsAt(db, 0)
    ensures PerformAll(Actions(Bootstrap(createdAt)), db)
         == Some(Database(CATALOG_V4, map[FormatVersion := FORMAT_VERSION, StoreCreatedAt := createdAt]))
  {
    FreshDdl();
    DdlRun(DDL_V4, db);
    var built := db.(catalog := CATALOG_V4);
    var writes := [InsertMeta(FormatVersion, FORMAT_VERSION), InsertMeta(StoreCreatedAt, createdAt)];
    PerformAllAppend(DdlActions(DDL_V4), writes, db);
    assert Meta in CATALOG_V3.tables;
    var once := built.(meta := map[FormatVersion := FORMAT_VERSION]);
    assert PerformAll(writes, built) == PerformAll(writes[1..], once);
    var twice := built.(meta := map[FormatVersion := FORMAT_VERSION, StoreCreatedAt := createdAt]);
    assert writes[1..][0] == InsertMeta(StoreCreatedAt, createdAt);
    assert PerformAll(writes[1..], once) == PerformAll(writes[1..][1..], twice) == Some(twice);
  }

  lemma {:induction false} MigrationActions(db: Database, level: Level)
    requires 1 <= level < 4 && IsAt(db, level)
    ensures PerformAll(Actions(TaskFor(level, "")), db)
         == Some(Database(CatalogAt(level + 1), db.meta[FormatVersion := VersionText(level + 1)]))
  {
    var task := TaskFor(level, "");
    assert ExecuteAll(task.ddl, db.catalog) == Some(CatalogAt(level + 1)) by {
      ExternalIdDdl();
      ScopeDdl();
      GraphDdl();
    }
    DdlRun(task.ddl, db);
    var writes := [UpdateMeta(FormatVersion, task.to)];
    PerformAllAppend(DdlActions(task.ddl), writes, db);
    var built := db.(catalog := CatalogAt(level + 1));
    assert Meta in CATALOG_V2.tables && Meta in CATALOG_V3.tables && Meta in CATALOG_V4.tables;
    var done := built.(meta := db.meta[FormatVersion := task.to]);
    assert PerformAll(writes, built) == PerformAll(writes[1..], done) == Some(done);
  }

  /**
   Every schema transaction whose guard holds succeeds, and takes a file holding exactly the
   schema of its version to a file holding exactly the schema of a later one. The creation
   time is written once, by the bootstrap, and kept by every migration.
   */
  lemma TaskReachesTarget(db: Database, level: Level, createdAt: string)
    requires level < 4 && IsAt(db, level)
    ensures Guard(TaskFor(level, createdAt), db)
    ensures var r := RunTask(TaskFor(level, createdAt), db);
            && r.Ok? && IsAt(r.value, TargetLevel(level))
            && r.value.meta[StoreCreatedAt] == if level == 0 then createdAt else db.meta[StoreCreatedAt]
  {
    VersionGivesLevel(db, level);
    if level == 0 {
      BootstrapActions(db, createdAt);
    } else {
      MigrationActions(db, level);
    }
  }

  /** A task written for one level is a no-op on a file at any other level. */
  lemma TaskSkipsOtherLevels(db: Database, level: Level, taskLevel: Level, createdAt: string)
    requires taskLevel < 4 && IsAt(db, level) && level != taskLevel
    ensures !Guard(TaskFor(taskLevel, createdAt), db)
    ensures RunTask(TaskFor(taskLevel, createdAt), db) == Ok(db)
  {
    VersionGivesLevel(db, level);
    assert "1"[0] == '1' && "2"[0] == '2' && "3"[0] == '3' && "4"[0] == '4';
  }

  /******* Opening *******/

  /** The transactions a writable open runs after reading `version` outside any transaction. */
  function Plan(version: Option<string>, createdAt: string): Result<seq<Task>, Error> {
    match version
    case None => Ok([Bootstrap(createdAt)])
    case Some(v) =>
      if v == FORMAT_VERSION then Ok([])
      else if v == "1" then Ok([MIGRATE_1_TO_2, MIGRATE_2_TO_3, MIGRATE_3_TO_4])
      else if v == "2" then Ok([MIGRATE_2_TO_3, MIGRATE_3_TO_4])
      else if v == "3" then Ok([MIGRATE_3_TO_4])
      else Err(UnsupportedFormatVersion(v))
  }

  /** A read-only open never migrates: it accepts the current version and nothing else. */
  function OpenReadOnly(db: Database): Result<(), Error> {
    match ReadFormatVersion(db)
    case None => Err(UnsupportedFormatVersion("<missing>"))
    case Some(v) =>
      if v == "1" || v == "2" || v == "3" then Err(MigrationFailure(v))
      else if v != FORMAT_VERSION then Err(UnsupportedFormatVersion(v))
      else Ok(())
  }

  /** A migration's statements, seen as one batch followed by the version update. */
  lemma {:induction false} MigrationUnfolded(task: Task, db: Database)
    requires task.Migration?
    ensures PerformAll(Actions(task), db)
         == (match ExecuteAll(task.ddl, db.catalog)
             case None => None
             case Some(catalog) => Perform(UpdateMeta(FormatVersion, task.to), db.(catalog := catalog)))
  {
    var write := UpdateMeta(FormatVersion, task.to);
    DdlRun(task.ddl, db);
    PerformAllAppend(DdlActions(task.ddl), [write], db);
    match ExecuteAll(task.ddl, db.catalog)
    case None =>
    case Some(catalog) => PerformOneMore([write], 0, db.(catalog := catalog));
  }

  /** A bootstrap's statements, seen as one batch followed by the two inserts. */
  lemma {:induction false} BootstrapUnfolded(createdAt: string, db: Database)
    ensures PerformAll(Actions(Bootstrap(createdAt)), db)
         == (match ExecuteAll(DDL_V4, db.catalog)
             case None => None
             case Some(catalog) =>
               match Perform(InsertMeta(FormatVersion, FORMAT_VERSION), db.(catalog := catalog))
               case None => None
               case Some(versioned) => Perform(InsertMeta(StoreCreatedAt, createdAt), versioned))
  {
    var writes := [InsertMeta(FormatVersion, FORMAT_VERSION), InsertMeta(StoreCreatedAt, createdAt)];
    DdlRun(DDL_V4, db);
    PerformAllAppend(DdlActions(DDL_V4), writes, db);
    match ExecuteAll(DDL_V4, db.catalog)
    case None =>
    case Some(catalog) =>
      var built := db.(catalog := catalog);
      assert writes[..2] == writes && writes[..1] == [writes[0]];
      PerformOneMore(writes, 0, built);
      PerformOneMore(writes, 1, built);
  }

  /** A fault still `n` calls away is `n - passed` calls away once `passed` calls have succeeded. */
  function After(fault: Option<nat>, passed: nat): Option<nat>
    requires fault.Some? ==> fault.value >= passed
  {
    match fault
    case None => None
    case Some(n) => Some(n - passed)
  }

  /** `execute_batch`: the statements in order on a working copy, stopping at the first failure. */
  method ExecuteBatch(ddl: seq<Statement>, catalog: Catalog, fault: Option<nat>) returns (r: Option<Catalog>)
    ensures r.Some? ==> r == ExecuteAll(ddl, catalog)
    ensures fault.None? || fault.value >= |ddl| ==> r == ExecuteAll(ddl, catalog)
    ensures fault.Some? && fault.value < |ddl| ==> r.None?
  {
    var tx := catalog;
    var i := 0;
    while i < |ddl|
      invariant 0 <= i <= |ddl|
      invariant ExecuteAll(ddl[i..], tx) == ExecuteAll(ddl, catalog)
      invariant fault.Some? ==> fault.value >= i
    {
      var next := Execute(ddl[i], tx);
      assert ddl[i..][1..] == ddl[i + 1..];
      if next.None? || fault == Some(i) { return None; }
      tx := next.value;
      i := i + 1;
    }
    return Some(tx);
  }

  /** One writable connection to a database file. */
  class Connection {
    var db: Database

    constructor (file: Database)
      ensures db == file
    {
      db := file;
    }

    /**
     `run_migration`. `fault` is the number of SQLite calls that succeed before one fails
     for a reason of its own (lock timeout, disk): begin, read, each statement, update, commit.
     */
    method RunMigration(task: Task, fault: Option<nat>) returns (r: Result<(), Error>)
      requires task.Migration?
      modifies this
      ensures r.Err? ==> db == old(db) && r.error == MigrationFailure(task.from)
      ensures r.Ok? ==> RunTask(task, old(db)) == Ok(db)
      ensures fault.None? && RunTask(task, old(db)).Ok? ==> r.Ok?
      ensures fault.Some? && Guard(task, old(db)) && fault.value < |task.ddl| + 4 ==> r.Err?
    {
      var failure := Err(MigrationFailure(task.from));
      if fault == Some(0) || fault == Some(1) { return failure; }
      if ReadFormatVersion(db) != Some(task.from) {
        return if fault == Some(2) then failure else Ok(());
      }
      MigrationUnfolded(task, db);
      var built := ExecuteBatch(task.ddl, db.catalog, After(fault, 2));
      if built.None? { return failure; }
      var updated := Perform(UpdateMeta(FormatVersion, task.to), db.(catalog := built.value));
      if updated.None? || fault == Some(|task.ddl| + 2) { return failure; }
      if fault == Some(|task.ddl| + 3) { return failure; }
      db := updated.value;
      return Ok(());
    }

    /** `apply_current`, with the same account of faults. */
    method ApplyCurrent(createdAt: string, fault: Option<nat>) returns (r: Result<(), Error>)
      modifies this
      ensures r.Err? ==> db == old(db) && r.error == SqliteFailure
      ensures r.Ok? ==> RunTask(Bootstrap(createdAt), old(db)) == Ok(db)
      ensures fault.None? && RunTask(Bootstrap(createdAt), old(db)).Ok? ==> r.Ok?
      ensures fault.Some? && Guard(Bootstrap(createdAt), old(db)) && fault.value < |DDL_V4| + 5 ==> r.Err?
    {
      if fault == Some(0) || fault == Some(1) { return Err(SqliteFailure); }
      if ReadFormatVersion(db).Some? {
        return if fault == Some(2) then Err(SqliteFailure) else Ok(());
      }
      BootstrapUnfolded(createdAt, db);
      var ddl := DDL_V4;
      var built := ExecuteBatch(ddl, db.catalog, After(fault, 2));
      if built.None? { return Err(SqliteFailure); }
      var versioned := Perform(InsertMeta(FormatVersion, FORMAT_VERSION), db.(catalog := built.value));
      if versioned.None? || fault == Some(|ddl| + 2) { return Err(SqliteFailure); }
      var dated := Perform(InsertMeta(StoreCreatedAt, createdAt), versioned.value);
      if dated.None? || fault == Some(|ddl| + 3) || fault == Some(|ddl| + 4) { return Err(SqliteFailure); }
      db := dated.value;
      return Ok(());
    }

    /** The writable half of `open_inner` when no other process interferes and no call faults. */
    method Open(createdAt: string) returns (r: Result<(), Error>)
      modifies this
      ensures (db, r) == OpenAlone(old(db), createdAt)
    {
      var plan := Plan(ReadFormatVersion(db), createdAt);
      if plan.Err? { return Err(plan.error); }
      var tasks := plan.value;
      var i := 0;
      while i < |tasks|
        invariant 0 <= i <= |tasks|
        invariant RunPlan(tasks[i..], db) == RunPlan(tasks, old(db))
      {
        assert tasks[i..][1..] == tasks[i + 1..];
        if tasks[i].Bootstrap? {
          r := ApplyCurrent(tasks[i].createdAt, None);
        } else {
          r := RunMigration(tasks[i], None);
        }
        if r.Err? { return; }
        i := i + 1;
      }
      return Ok(());
    }
  }

  /** The transactions of a plan in order; those before a failing one stay committed. */
  function RunPlan(tasks: seq<Task>, db: Database): (Database, Result<(), Error>) {
    if tasks == [] then (db, Ok(()))
    else
      match RunTask(tasks[0], db)
      case Err(e) => (db, Err(e))
      case Ok(next) => RunPlan(tasks[1..], next)
  }

  function OpenAlone(db: Database, createdAt: string): (Database, Result<(), Error>) {
    match Plan(ReadFormatVersion(db), createdAt)
    case Err(e) => (db, Err(e))
    case Ok(tasks) => RunPlan(tasks, db)
  }

  /** The plan of a file at `level`: one migration per missing version, or the bootstrap. */
  function PlanFrom(level: Level, createdAt: string): seq<Task>
    decreases 4 - level
  {
    if level == 4 then [] else [TaskFor(level, createdAt)] + PlanFrom(TargetLevel(level), createdAt)
  }

  lemma PlanIsPlanFrom(db: Database, level: Level, createdAt: string)
    requires IsAt(db, level)
    ensures Plan(ReadFormatVersion(db), createdAt) == Ok(PlanFrom(level, createdAt))
  {
    VersionGivesLevel(db, level);
    assert "1"[0] == '1' && "2"[0] == '2' && "3"[0] == '3' && "4"[0] == '4';
    assert PlanFrom(4, createdAt) == [];
    assert PlanFrom(3, createdAt) == [MIGRATE_3_TO_4];
    assert PlanFrom(2, createdAt) == [MIGRATE_2_TO_3, MIGRATE_3_TO_4];
    assert PlanFrom(1, createdAt) == [MIGRATE_1_TO_2, MIGRATE_2_TO_3, MIGRATE_3_TO_4];
    assert PlanFrom(0, createdAt) == [Bootstrap(createdAt)];
  }

  lemma {:induction false} PlanReachesCurrent(db: Database, level: Level, createdAt: string)
    requires IsAt(db, level)
    ensures var (after, r) := RunPlan(PlanFrom(level, createdAt), db);
            && r.Ok? && IsAt(after, 4)
            && after.meta[StoreCreatedAt] == if level == 0 then createdAt else db.meta[StoreCreatedAt]
    decreases 4 - level
  {
    if level < 4 {
      TaskReachesTarget(db, level, createdAt);
      var next := RunTask(TaskFor(level, createdAt), db).value;
      var plan := PlanFrom(level, createdAt);
      assert plan[1..] == PlanFrom(TargetLevel(level), createdAt);
      PlanReachesCurrent(next, TargetLevel(level), createdAt);
    }
  }

  /**
   Opening alone: from an empty file or any supported version the open succeeds and leaves
   exactly the current schema, keeping the recorded creation time of an existing store.
   Whichever path is taken, the result is the same catalog.
   */
  lemma OpenAloneReachesCurrent(db: Database, level: Level, createdAt: string)
    requires IsAt(db, level)
    ensures var (after, r) := OpenAlone(db, createdAt);
            && r.Ok? && after.catalog == CATALOG_V4
            && after.meta.Keys == {FormatVersion, StoreCreatedAt} && after.meta[FormatVersion] == FORMAT_VERSION
            && after.meta[StoreCreatedAt] == (if level == 0 then createdAt else db.meta[StoreCreatedAt])
            && OpenReadOnly(after) == Ok(())
  {
    PlanIsPlanFrom(db, level, createdAt);
    PlanReachesCurrent(db, level, createdAt);
    VersionGivesLevel(OpenAlone(db, createdAt).0, 4);
    assert "1"[0] == '1' && "2"[0] == '2' && "3"[0] == '3' && "4"[0] == '4';
  }

  lemma {:induction false} RunPlanErrors(tasks: seq<Task>, db: Database)
    ensures var r := RunPlan(tasks, db).1; r.Err? ==> !r.error.UnsupportedFormatVersion?
  {
    if tasks != [] {
      match RunTask(tasks[0], db)
      case Err(_) =>
      case Ok(next) => RunPlanErrors(tasks[1..], next);
    }
  }

  /**
   Whatever the schema of the file, a writable open reports an unsupported version exactly when the
   recorded version is not one of the four, and then the file is as it was. A read-only open accepts
   exactly the current version, and reports an older one as a migration it may not run.
   */
  lemma OpenRefusesUnknown(db: Database, createdAt: string)
    ensures var (after, r) := OpenAlone(db, createdAt);
            && (r.Err? && r.error.UnsupportedFormatVersion? <==>
                  ReadFormatVersion(db).Some? && ReadFormatVersion(db).value !in {"1", "2", "3", "4"})
            && (r.Err? && r.error.UnsupportedFormatVersion? ==>
                  after == db && r.error.found == ReadFormatVersion(db).value)
    ensures OpenReadOnly(db).Ok? <==> ReadFormatVersion(db) == Some("4")
    ensures forall v :: OpenReadOnly(db) == Err(MigrationFailure(v)) <==>
              ReadFormatVersion(db) == Some(v) && v in {"1", "2", "3"}
    ensures forall v :: OpenReadOnly(db) == Err(UnsupportedFormatVersion(v)) <==>
              if ReadFormatVersion(db).None? then v == "<missing>"
              else ReadFormatVersion(db) == Some(v) && v !in {"1", "2", "3", "4"}
  {
    match Plan(ReadFormatVersion(db), createdAt)
    case Err(_) =>
    case Ok(tasks) => RunPlanErrors(tasks, db);
  }
}
