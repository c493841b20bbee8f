/** The generic repository over an entity store. The DbContext is a class
    holding the rows of one entity set and the number of SaveChanges calls;
    every save is taken to succeed. Awaiting adds nothing, so the async
    members behave as their synchronous twins. */
module SqlRepository {
  import opened Primitives
  import Linq
  import Pagination
  import ServicesDb

  /** An entity's primary key value. */
  datatype Key = Int32Key(n: Int32) | TextKey(text: string)

  /** The CLR type of an entity set's primary key. */
  datatype KeyKind = Int32Kind | TextKind

  /** The ways a repository call throws. */
  datatype RepoError =
    | ArgumentNull(paramName: string)   // ArgumentNullException
    | EntityNotFound                    // Exception("Entity not found.")
    | InvalidFormat                     // FormatException from Convert.ToInt32
    | Int32Overflow                     // OverflowException from Convert.ToInt32
    | KeyTypeMismatch                   // Find with an Int32 value on a non-Int32 key

  /** The message constant. It is passed as the first argument of
      ArgumentNullException, so it ends up as the parameter name. */
  const NullEntity: string := "You must provide an entity."

  /** One entity set of a DbContext and its save counter. */
  class DbContext<T(==)> {
    var entities: seq<T>
    var saveCount: nat
    const keyOf: T -> Key
    const keyKind: KeyKind

    constructor (entities: seq<T>, keyOf: T -> Key, keyKind: KeyKind)
      ensures this.entities == entities && saveCount == 0
      ensures this.keyOf == keyOf && this.keyKind == keyKind
    {
      this.entities := entities;
      saveCount := 0;
      this.keyOf := keyOf;
      this.keyKind := keyKind;
    }

    /** context.SaveChanges(): the pending changes are already in `entities`
        here, so a save only counts. */
    method SaveChanges()
      modifies this
      ensures entities == old(entities) && saveCount == old(saveCount) + 1
    {
      saveCount := saveCount + 1;
    }
  }

  /** An enumeration of rows, and whether the context tracks what it yields. */
  datatype QueryResult<T> = QueryResult(rows: seq<T>, tracked: bool)

  /** The lambda `x => key(x) == k`. */
  function HasKey<T>(keyOf: T -> Key, k: Key): T -> bool
  {
    x => keyOf(x) == k
  }

  /** The lambda `x => key(x) != k`. */
  function LacksKey<T>(keyOf: T -> Key, k: Key): T -> bool
  {
    x => keyOf(x) != k
  }

  /** The rows left once the row with key k is deleted. */
  function RemoveKey<T>(s: seq<T>, keyOf: T -> Key, k: Key): (r: seq<T>)
    ensures forall i | 0 <= i < |r| :: keyOf(r[i]) != k
    ensures forall x | x in r :: x in s
    ensures forall x | x in s && keyOf(x) != k :: multiset(r)[x] == multiset(s)[x]
  {
    Linq.Where(s, LacksKey(keyOf, k))
  }

  /** The rows once `entity` is saved as Modified: the row with its key now
      holds its values; a store without that key is left as it is. */
  function ReplaceKey<T>(s: seq<T>, keyOf: T -> Key, entity: T): (r: seq<T>)
    ensures |r| == |s|
    ensures forall i | 0 <= i < |s| ::
      r[i] == if keyOf(s[i]) == keyOf(entity) then entity else s[i]
  {
    seq(|s|, i requires 0 <= i < |s| => if keyOf(s[i]) == keyOf(entity) then entity else s[i])
  }

  class SqlDatabaseRepo<T(==)> {
    const context: DbContext<T>

    constructor (context: DbContext<T>)
      ensures this.context == context
    {
      this.context := context;
    }

    /** `context ?? throw new ArgumentNullException(nameof(context))`. */
    static method New(context: Option<DbContext<T>>) returns (r: Result<SqlDatabaseRepo<T>, RepoError>)
      ensures context.None? ==> r == Failure(ArgumentNull("context"))
      ensures context.Some? ==> r.Success? && fresh(r.value) && r.value.context == context.value
    {
      if context.None? {
        return Failure(ArgumentNull("context"));
      }
      var repo := new SqlDatabaseRepo(context.value);
      r := Success(repo);
    }

    /** Filter(): the whole set, tracked. */
    function Filter(): (r: QueryResult<T>)
      reads context
      ensures r.rows == context.entities && r.tracked
    {
      QueryResult(context.entities, true)
    }

    /** Filter(predicate): exactly the stored rows satisfying the predicate,
        as often as they are stored and in store order (Linq.WhereConcat),
        tracked. */
    function FilterBy(p: T -> bool): (r: QueryResult<T>)
      reads context
      ensures r.tracked
      ensures r.rows == Linq.Where(context.entities, p)
      ensures forall i | 0 <= i < |r.rows| :: p(r.rows[i])
      ensures forall x | x in context.entities ::
        multiset(r.rows)[x] == if p(x) then multiset(context.entities)[x] else 0
      ensures forall x | x in r.rows :: x in context.entities
    {
      QueryResult(Linq.Where(context.entities, p), true)
    }

    /** FilterAsNoTracking(): the whole set, untracked. */
    function FilterAsNoTracking(): (r: QueryResult<T>)
      reads context
      ensures r.rows == context.entities && !r.tracked
    {
      QueryResult(context.entities, false)
    }

    /** FilterAsNoTracking(predicate): the rows Filter(predicate) yields, in
        store order, untracked. */
    function FilterAsNoTrackingBy(p: T -> bool): (r: QueryResult<T>)
      reads context
      ensures !r.tracked
      ensures r.rows == Linq.Where(context.entities, p)
      ensures forall i | 0 <= i < |r.rows| :: p(r.rows[i])
      ensures forall x | x in context.entities ::
        multiset(r.rows)[x] == if p(x) then multiset(context.entities)[x] else 0
      ensures forall x | x in r.rows :: x in context.entities
    {
      QueryResult(Linq.Where(context.entities, p), false)
    }

    /** Filter(id) and FilterAsync(id): a null id throws, the id is parsed
        with Convert.ToInt32 (format and overflow errors), Find needs an Int32
        key, and a missing key throws "Entity not found.". */
    function FilterById(id: Option<string>): (r: Result<T, RepoError>)
      reads context
      ensures id.None? ==> r == Failure(ArgumentNull(NullEntity))
      ensures id.Some? && ParseInt32(id.value) == Failure(FormatError) ==> r == Failure(InvalidFormat)
      ensures id.Some? && ParseInt32(id.value) == Failure(OverflowError) ==> r == Failure(Int32Overflow)
      ensures id.Some? && ParseInt32(id.value).Success? && context.keyKind == TextKind ==>
        r == Failure(KeyTypeMismatch)
      ensures id.Some? && ParseInt32(id.value).Success? && context.keyKind == Int32Kind ==>
        && (r.Success? <==> exists x | x in context.entities :: context.keyOf(x) == Int32Key(ParseInt32(id.value).value))
        && (r.Failure? ==> r.error == EntityNotFound)
        && (r.Success? ==> r.value in context.entities && context.keyOf(r.value) == Int32Key(ParseInt32(id.value).value))
    {
      if id.None? then Failure(ArgumentNull(NullEntity))
      else match ParseInt32(id.value)
        case Failure(FormatError) => Failure(InvalidFormat)
        case Failure(OverflowError) => Failure(Int32Overflow)
        case Success(n) =>
          if context.keyKind == TextKind then Failure(KeyTypeMismatch)
          else match Linq.FirstOrDefault(context.entities, HasKey(context.keyOf, Int32Key(n)))
            case None => Failure(EntityNotFound)
            case Some(x) => Success(x)
    }

    /** Create and CreateAsync: null throws with no change and no save;
        otherwise the entity is added, saved once and returned. */
    method Create(entity: Option<T>) returns (r: Result<T, RepoError>)
      modifies context
      ensures entity.None? ==>
        r == Failure(ArgumentNull(NullEntity)) &&
        context.entities == old(context.entities) && context.saveCount == old(context.saveCount)
      ensures entity.Some? ==>
        r == Success(entity.value) &&
        context.entities == old(context.entities) + [entity.value] &&
        context.saveCount == old(context.saveCount) + 1
    {
      if entity.None? {
        return Failure(ArgumentNull(NullEntity));
      }
      context.entities := context.entities + [entity.value];
      context.SaveChanges();
      r := Success(entity.value);
    }

    /** Delete and DeleteAsync: null throws with no change and no save;
        otherwise the row with the entity's key goes, the others stay, one
        save happens and the argument is returned. */
    method Delete(entity: Option<T>) returns (r: Result<T, RepoError>)
      modifies context
      ensures entity.None? ==>
        r == Failure(ArgumentNull(NullEntity)) &&
        context.entities == old(context.entities) && context.saveCount == old(context.saveCount)
      ensures entity.Some? ==>
        r == Success(entity.value) &&
        context.entities == RemoveKey(old(context.entities), context.keyOf, context.keyOf(entity.value)) &&
        context.saveCount == old(context.saveCount) + 1
    {
      if entity.None? {
        return Failure(ArgumentNull(NullEntity));
      }
      context.entities := RemoveKey(context.entities, context.keyOf, context.keyOf(entity.value));
      context.SaveChanges();
      r := Success(entity.value);
    }

    /** Update: the predicate is checked first, so a store with no matching
        row throws "Entity not found." even for a null entity; then a null
        entity throws. Otherwise the entity is saved as Modified and the
        ARGUMENT is returned, not the row the predicate found. */
    method Update(p: T -> bool, entity: Option<T>) returns (r: Result<T, RepoError>)
      modifies context
      ensures (forall x | x in old(context.entities) :: !p(x)) ==>
        r == Failure(EntityNotFound) &&
        context.entities == old(context.entities) && context.saveCount == old(context.saveCount)
      ensures (exists x | x in old(context.entities) :: p(x)) && entity.None? ==>
        r == Failure(ArgumentNull(NullEntity)) &&
        context.entities == old(context.entities) && context.saveCount == old(context.saveCount)
      ensures (exists x | x in old(context.entities) :: p(x)) && entity.Some? ==>
        r == Success(entity.value) &&
        context.entities == ReplaceKey(old(context.entities), context.keyOf, entity.value) &&
        context.saveCount == old(context.saveCount) + 1
    {
      var found := Linq.FirstOrDefault(FilterBy(p).rows, (x: T) => true);
      if found.None? {
        return Failure(EntityNotFound);
      }
      if entity.None? {
        return Failure(ArgumentNull(NullEntity));
      }
      context.entities := ReplaceKey(context.entities, context.keyOf, entity.value);
      context.SaveChanges();
      r := Success(entity.value);
    }

    /** UpdateAsync: the same checks in the same order, the lookup running
        untracked. */
    method UpdateAsync(p: T -> bool, entity: Option<T>) returns (r: Result<T, RepoError>)
      modifies context
      ensures (forall x | x in old(context.entities) :: !p(x)) ==>
        r == Failure(EntityNotFound) &&
        context.entities == old(context.entities) && context.saveCount == old(context.saveCount)
      ensures (exists x | x in old(context.entities) :: p(x)) && entity.None? ==>
        r == Failure(ArgumentNull(NullEntity)) &&
        context.entities == old(context.entities) && context.saveCount == old(context.saveCount)
      ensures (exists x | x in old(context.entities) :: p(x)) && entity.Some? ==>
        r == Success(entity.value) &&
        context.entities == ReplaceKey(old(context.entities), context.keyOf, entity.value) &&
        context.saveCount == old(context.saveCount) + 1
    {
      var found := Linq.FirstOrDefault(FilterAsNoTrackingBy(p).rows, (x: T) => true);
      if found.None? {
        return Failure(EntityNotFound);
      }
      if entity.None? {
        return Failure(ArgumentNull(NullEntity));
      }
      context.entities := ReplaceKey(context.entities, context.keyOf, entity.value);
      context.SaveChanges();
      r := Success(entity.value);
    }

    /** FilterPaginationAsync: `OrderBy(x => x)` on an entity type, which EF
        Core translates into an ORDER BY on the primary key; `keyRank` is the
        database's order of key values. The ordered set is then paged. */
    function FilterPagination(query: Pagination.PaginationQuery, show: T -> string,
                              sortKey: (string, T) -> int, keyRank: Key -> int)
      : (r: Result<Pagination.PagedResult<T>, Pagination.PagingError>)
      reads context
      ensures
        var ordered := Linq.SortBy(context.entities, KeyOrder(context.keyOf, keyRank), false);
        && multiset(ordered) == multiset(context.entities)
        && (forall i, j | 0 <= i < j < |ordered| ::
              keyRank(context.keyOf(ordered[i])) <= keyRank(context.keyOf(ordered[j])))
        && r == Pagination.ToPagedResult(ordered, query, show, sortKey)
    {
      var ordered := Linq.SortBy(context.entities, KeyOrder(context.keyOf, keyRank), false);
      assert forall i, j | 0 <= i < j < |ordered| ::
        Linq.InOrder(false, KeyOrder(context.keyOf, keyRank)(ordered[i]), KeyOrder(context.keyOf, keyRank)(ordered[j]));
      Pagination.ToPagedResult(ordered, query, show, sortKey)
    }
  }

  /** The rank of an entity's primary key: the sort key of `OrderBy(x => x)`. */
  function KeyOrder<T>(keyOf: T -> Key, keyRank: Key -> int): T -> int
  {
    x => keyRank(keyOf(x))
  }

  /** With the default query, FilterPaginationAsync returns the ten rows
      with the lowest keys, in key order, and counts the whole set. */
  lemma FilterPaginationDefault<T>(repo: SqlDatabaseRepo<T>, show: T -> string,
                                       sortKey: (string, T) -> int, keyRank: Key -> int)
    requires |repo.context.entities| <= MaxInt32
    ensures
      var r := repo.FilterPagination(Pagination.DefaultQuery, show, sortKey, keyRank);
      var ordered := Linq.SortBy(repo.context.entities, KeyOrder(repo.context.keyOf, keyRank), false);
      && r.Success?
      && r.value.items == Some(ordered[..Pagination.Min(10, |ordered|)])
      && r.value.totalCount == |repo.context.entities|
      && forall i, j | 0 <= i < j < |r.value.items.value| ::
           keyRank(repo.context.keyOf(r.value.items.value[i])) <= keyRank(repo.context.keyOf(r.value.items.value[j]))
  {
    var order := KeyOrder(repo.context.keyOf, keyRank);
    var ordered := Linq.SortBy(repo.context.entities, order, false);
    Pagination.DefaultQueryFirstPage(ordered, show, sortKey);
    var items := ordered[..Pagination.Min(10, |ordered|)];
    assert forall i, j | 0 <= i < j < |items| :: Linq.InOrder(false, order(items[i]), order(items[j])) by {
      forall i, j | 0 <= i < j < |items|
        ensures Linq.InOrder(false, order(items[i]), order(items[j]))
      {
        assert items[i] == ordered[i] && items[j] == ordered[j];
      }
    }
  }

  /** On an Int32-keyed set, a row created under key n is found by the id
      n.ToString(), provided no earlier row had that key. */
  lemma FindAfterCreate<T>(repo: SqlDatabaseRepo<T>, before: seq<T>, entity: T, n: Int32)
    requires repo.context.keyKind == Int32Kind
    requires repo.context.keyOf(entity) == Int32Key(n)
    requires forall x | x in before :: repo.context.keyOf(x) != Int32Key(n)
    requires repo.context.entities == before + [entity]
    ensures repo.FilterById(Some(Int32ToString(n))) == Success(entity)
  {
    ParseFormatRoundTrip(n);
    var s := repo.context.entities;
    assert entity in s;
    var r := repo.FilterById(Some(Int32ToString(n)));
    assert r.Success?;
  }

  predicate IsHexDigit(c: char)
  {
    IsDigit(c) || ('a' <= c <= 'f') || ('A' <= c <= 'F')
  }

  /** Guid.ToString(): 32 hex digits in groups of 8-4-4-4-12. */
  predicate IsGuidText(s: string)
  {
    && |s| == 36
    && (forall i | 0 <= i < 36 && (i == 8 || i == 13 || i == 18 || i == 23) :: s[i] == '-')
    && (forall i | 0 <= i < 36 && i != 8 && i != 13 && i != 18 && i != 23 :: IsHexDigit(s[i]))
  }

  /** Convert.ToInt32 rejects every GUID string, so on the string-keyed
      forecast set, whose ids are GUID strings, Filter(id) never reaches the
      lookup. */
  lemma GuidIdIsInvalidFormat<T>(repo: SqlDatabaseRepo<T>, id: string)
    requires IsGuidText(id)
    ensures repo.FilterById(Some(id)) == Failure(InvalidFormat)
  {
    assert !IsParseWhite(id[0]) && !IsParseWhite(id[35]);
    assert TrimStart(id) == id;
    assert TrimEnd(id) == id;
    assert !IsSign(id[0]);
    assert !IsDigit(id[8]);
  }

  /** An id with a character that is neither white space, a sign nor a digit
      is rejected as malformed. */
  lemma NonNumeralIdIsInvalidFormat<T>(repo: SqlDatabaseRepo<T>, id: string, i: nat)
    requires i < |id| && !IsParseWhite(id[i]) && !IsSign(id[i]) && !IsDigit(id[i])
    ensures repo.FilterById(Some(id)) == Failure(InvalidFormat)
  {
    NonNumeralRejected(id, i);
  }

  /** The seed rows' ids are GUID strings with a hex letter in them, so
      Filter(id) rejects every one of them as malformed. */
  lemma SeedIdsAreInvalidFormat<T>(repo: SqlDatabaseRepo<T>)
    ensures forall k | 0 <= k < |ServicesDb.SeedRows| ::
      repo.FilterById(Some(ServicesDb.SeedRows[k].id)) == Failure(InvalidFormat)
  {
    var rows := ServicesDb.SeedRows;
    forall k | 0 <= k < |rows|
      ensures repo.FilterById(Some(rows[k].id)) == Failure(InvalidFormat)
    {
      var i := if k == 0 || k == 2 then 2 else if k == 3 then 4 else 1;
      assert !IsParseWhite(rows[k].id[i]) && !IsSign(rows[k].id[i]) && !IsDigit(rows[k].id[i]) by {
        assert k == 0 || k == 1 || k == 2 || k == 3 || k == 4;
      }
      NonNumeralIdIsInvalidFormat(repo, rows[k].id, i);
    }
  }
}
