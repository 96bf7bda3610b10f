/**
 * `PostgresAdRepo` over an abstract database: the `ads` table, the `serial`
 * sequence that numbers its rows, and the cursors each server session holds.
 *
 * Every operation takes an `Access`: the outcome of asking the connection pool
 * for a connection and of the server running the statement for reasons this
 * model does not see (network, server faults). Failures the model does see —
 * a missing row, a value longer than its column, an exhausted sequence, a
 * duplicate or unknown cursor name — are decided from the state.
 */
module AdRepo {
  import opened Wrappers
  import opened Ints
  import opened Ads
  import opened Filter
  import opened Table
  import opened Cursors

  /** How a connection request and the statement on it turn out. */
  datatype Access =
    | Granted(session: nat)   // a pooled connection, attached to server session `session`
    | PoolExhausted           // `pool.get()` failed
    | StatementFailed         // the server refused or lost the statement

  datatype RepoError =
    | PoolError          // mapped from the pool's error message
    | StorageError       // any database error not modelled below
    | CursorExists       // DECLARE of a name the session already uses
    | CursorMissing      // FETCH from a name the session does not hold
    | RowNotFound        // UPDATE ... RETURNING matched no row
    | SequenceExhausted  // the `serial` sequence passed the largest `int4`
    | ValueTooLong       // a string longer than its VARCHAR column

  /** Cursors live in a server session: the same name on two connections is two cursors. */
  datatype CursorKey = CursorKey(session: nat, name: string)

  /** Outcome of one `FETCH FORWARD` over the session cursors, and the cursors afterwards. */
  datatype FetchOutcome = FetchOutcome(result: Result<seq<Ad>, RepoError>, cursors: map<CursorKey, CursorState>)

  /** `FETCH FORWARD count FROM name` on the connection `access` yields. */
  function FetchStep(cursors: map<CursorKey, CursorState>, name: string, count: uint8, access: Access): (o: FetchOutcome)
    requires forall k | k in cursors :: ValidCursor(cursors[k])
    ensures forall k | k in o.cursors :: ValidCursor(o.cursors[k])
    ensures o.cursors.Keys == cursors.Keys
    ensures o.result.Success? <==> access.Granted? && CursorKey(access.session, name) in cursors
    ensures o.result.Success? ==> |o.result.value| <= if count == 0 then 1 else count as nat
    ensures o.result.Success? ==>
              var key := CursorKey(access.session, name);
              && o.result.value == Fetch(cursors[key], count).rows
              && o.cursors == cursors[key := Fetch(cursors[key], count).after]
    ensures forall k | k in cursors && (!access.Granted? || k != CursorKey(access.session, name)) ::
              o.cursors[k] == cursors[k]
  {
    match access
    case PoolExhausted => FetchOutcome(Failure(PoolError), cursors)
    case StatementFailed => FetchOutcome(Failure(StorageError), cursors)
    case Granted(session) =>
      var key := CursorKey(session, name);
      if key !in cursors then FetchOutcome(Failure(CursorMissing), cursors)
      else
        var f := Fetch(cursors[key], count);
        FetchOutcome(Success(f.rows), cursors[key := f.after])
  }

  class Database {
    var rows: seq<Ad>
    /** The next value `nextval` of the `serial` sequence hands out. */
    var nextId: int
    var cursors: map<CursorKey, CursorState>

    ghost predicate Valid()
      reads this
    {
      && UniqueIds(rows)
      && 1 <= nextId <= I32_MAX + 1
      && (forall i :: 0 <= i < |rows| ==> rows[i].id < nextId && FitsSchema(rows[i]))
      && (forall k | k in cursors :: ValidCursor(cursors[k]))
    }

    /** A freshly migrated database: no rows, the sequence at its start, no sessions. */
    constructor ()
      ensures Valid() && rows == [] && nextId == 1 && cursors == map[]
    {
      rows := [];
      nextId := 1;
      cursors := map[];
    }

    /**
     * `new_cursor`: build the filter, take a connection, name the cursor from
     * `uuid` and declare it `WITH HOLD` over the filter's rows. The clauses of
     * the declaration are the placeholders bound to the bind list, which is
     * the `get_page` filter by `CursorDeclarationMatchesPageQuery`.
     */
    method NewCursor(f: AdFilter, access: Access, uuid: string, ilike: (string, string) -> bool)
      returns (r: Result<string, RepoError>)
      requires Valid() && IsUuidText(uuid)
      modifies this
      ensures Valid() && rows == old(rows) && nextId == old(nextId)
      ensures access.PoolExhausted? ==> r == Failure(PoolError) && cursors == old(cursors)
      ensures access.StatementFailed? ==> r == Failure(StorageError) && cursors == old(cursors)
      ensures access.Granted? ==>
                var key := CursorKey(access.session, CursorName(uuid));
                if key in old(cursors) then r == Failure(CursorExists) && cursors == old(cursors)
                else r == Success(CursorName(uuid))
                     && cursors == old(cursors)[key := Declared(Filtered(rows, PageQueryClauses(f), ilike))]
    {
      if access.PoolExhausted? {
        return Failure(PoolError);
      }
      var name := CursorName(uuid);
      CursorDeclarationMatchesPageQuery(f);
      var declared := BindParams(Render(CursorQueryClauses(f), 1), CursorBinds(f)).value;
      if access.StatementFailed? {
        return Failure(StorageError);
      }
      var key := CursorKey(access.session, name);
      if key in cursors {
        return Failure(CursorExists);
      }
      cursors := cursors[key := Declared(Filtered(rows, declared, ilike))];
      r := Success(name);
    }

    /** `fetch_from_cursor`: `FETCH FORWARD count FROM name` on a pooled connection. */
    method FetchFromCursor(name: string, count: uint8, access: Access) returns (r: Result<seq<Ad>, RepoError>)
      requires Valid()
      modifies this
      ensures Valid() && rows == old(rows) && nextId == old(nextId)
      ensures FetchOutcome(r, cursors) == FetchStep(old(cursors), name, count, access)
    {
      var o := FetchStep(cursors, name, count, access);
      cursors := o.cursors;
      r := o.result;
    }

    /** `get_by_id`: the row with the primary key, if any. */
    method GetById(id: int32, access: Access) returns (r: Result<Option<Ad>, RepoError>)
      requires Valid()
      ensures access.PoolExhausted? ==> r == Failure(PoolError)
      ensures access.StatementFailed? ==> r == Failure(StorageError)
      ensures access.Granted? ==> r.Success? && (r.value.None? <==> NoRowWithId(rows, id))
      ensures r.Success? && r.value.Some? ==> r.value.value in rows && r.value.value.id == id
    {
      match access
      case PoolExhausted => r := Failure(PoolError);
      case StatementFailed => r := Failure(StorageError);
      case Granted(_) => r := Success(FindById(rows, id));
    }

    /** `get_page`: the filtered rows with the first `offset` skipped and at most `perPage` kept. */
    method GetPage(offset: uint32, perPage: uint32, f: AdFilter, access: Access, ilike: (string, string) -> bool)
      returns (r: Result<seq<Ad>, RepoError>)
      requires Valid()
      ensures access.PoolExhausted? ==> r == Failure(PoolError)
      ensures access.StatementFailed? ==> r == Failure(StorageError)
      ensures access.Granted? ==> r == Success(Page(Filtered(rows, PageQueryClauses(f), ilike), offset, perPage))
      ensures r.Success? ==> |r.value| <= perPage
      ensures r.Success? ==> forall a :: a in r.value ==> a in rows && MatchesFilter(a, f, ilike)
    {
      match access
      case PoolExhausted => r := Failure(PoolError);
      case StatementFailed => r := Failure(StorageError);
      case Granted(_) =>
        var selected := Filtered(rows, PageQueryClauses(f), ilike);
        FilteredByFilter(rows, f, ilike);
        var page := Page(selected, offset, perPage);
        assert forall a :: a in page ==> a in selected by {
          forall a | a in page ensures a in selected {
            var i :| 0 <= i < |page| && page[i] == a;
            assert selected[offset + i] == a;
          }
        }
        r := Success(page);
    }

    /**
     * `create`: insert the content under the next sequence value, status
     * `active`, the image ids in order and the two clock readings. The sequence
     * value is drawn before the row's strings are assigned to their
     * `VARCHAR` columns, so a refused value still uses up an id; a value whose
     * excess is only spaces is stored cut to the column's length.
     */
    method Create(content: AdContent, imageIds: seq<string>, access: Access, createdAt: Timestamp, updatedAt: Timestamp)
      returns (r: Result<Ad, RepoError>)
      requires Valid()
      modifies this
      ensures Valid() && cursors == old(cursors)
      ensures access.PoolExhausted? ==> r == Failure(PoolError) && rows == old(rows) && nextId == old(nextId)
      ensures access.StatementFailed? ==> r == Failure(StorageError) && rows == old(rows) && nextId == old(nextId)
      ensures access.Granted? && old(nextId) > I32_MAX ==>
                r == Failure(SequenceExhausted) && rows == old(rows) && nextId == old(nextId)
      ensures access.Granted? && old(nextId) <= I32_MAX && !ContentFits(content) ==>
                r == Failure(ValueTooLong) && rows == old(rows) && nextId == old(nextId) + 1
      ensures r.Success? ==>
                && r.value.id == old(nextId)
                && NoRowWithId(old(rows), r.value.id)
                && rows == old(rows) + [r.value] && nextId == old(nextId) + 1
                && r.value.status == ACTIVE && r.value.images == imageIds
                && r.value.title == ToVarchar(content.title, 255).value
                && r.value.userEmail == ToVarchar(content.userEmail, 255).value
                && r.value.userPhone == ToVarchar(content.userPhone, 50).value
                && r.value.description == content.description
                && r.value.price == content.price && r.value.topAd == content.topAd
                && r.value.createdAt == createdAt && r.value.updatedAt == updatedAt
      ensures access.Granted? && old(nextId) <= I32_MAX ==> (r.Success? <==> ContentFits(content))
    {
      if !access.Granted? {
        return if access.PoolExhausted? then Failure(PoolError) else Failure(StorageError);
      }
      if nextId > I32_MAX {
        return Failure(SequenceExhausted);
      }
      var row := Ad(nextId, content.title, content.description, content.price, ACTIVE,
                    content.userEmail, content.userPhone, createdAt, updatedAt, content.topAd, imageIds);
      nextId := nextId + 1;
      var stored := StoredAd(row);
      if stored.None? {
        return Failure(ValueTooLong);
      }
      rows := rows + [stored.value];
      r := Success(stored.value);
    }

    /**
     * `update`: every column but the primary key is set from `ad`, the
     * strings assigned to their `VARCHAR` columns; the stored row is returned.
     * No row with the key is an error, decided before any string is checked.
     */
    method Update(id: int32, ad: Ad, access: Access) returns (r: Result<Ad, RepoError>)
      requires Valid()
      modifies this
      ensures Valid() && cursors == old(cursors) && nextId == old(nextId)
      ensures access.PoolExhausted? ==> r == Failure(PoolError) && rows == old(rows)
      ensures access.StatementFailed? ==> r == Failure(StorageError) && rows == old(rows)
      ensures access.Granted? && NoRowWithId(old(rows), id) ==> r == Failure(RowNotFound) && rows == old(rows)
      ensures access.Granted? && !NoRowWithId(old(rows), id) && StoredAd(ad.(id := id)).None? ==>
                r == Failure(ValueTooLong) && rows == old(rows)
      ensures access.Granted? && !NoRowWithId(old(rows), id) && StoredAd(ad.(id := id)).Some? ==>
                && r == Success(StoredAd(ad.(id := id)).value)
                && r.value.id == id
                && rows == ReplaceById(old(rows), id, r.value)
    {
      if !access.Granted? {
        return if access.PoolExhausted? then Failure(PoolError) else Failure(StorageError);
      }
      if FindById(rows, id).None? {
        return Failure(RowNotFound);
      }
      var stored := StoredAd(ad.(id := id));
      if stored.None? {
        return Failure(ValueTooLong);
      }
      var row := stored.value;
      ReplaceByIdUnique(rows, id, row);
      rows := ReplaceById(rows, id, row);
      r := Success(row);
    }

    /** `delete`: remove the row with the key; the result counts the rows removed. */
    method Delete(id: int32, access: Access) returns (r: Result<nat, RepoError>)
      requires Valid()
      modifies this
      ensures Valid() && cursors == old(cursors) && nextId == old(nextId)
      ensures !access.Granted? ==> rows == old(rows)
      ensures access.PoolExhausted? ==> r == Failure(PoolError)
      ensures access.StatementFailed? ==> r == Failure(StorageError)
      ensures access.Granted? ==>
                && rows == RemoveId(old(rows), id)
                && r == Success(if NoRowWithId(old(rows), id) then 0 else 1)
                && r.value == |old(rows)| - |rows|
    {
      if !access.Granted? {
        return if access.PoolExhausted? then Failure(PoolError) else Failure(StorageError);
      }
      var found := FindById(rows, id).Some?;
      RemoveIdCount(rows, id);
      RemoveIdUnique(rows, id);
      rows := RemoveId(rows, id);
      r := Success(if found then 1 else 0);
    }
  }

  /** `Cursor`: a cursor name and the pool its reads go through. */
  class Cursor {
    const cursorName: string
    const db: Database

    constructor (cursorName: string, db: Database)
      ensures this.cursorName == cursorName && this.db == db
    {
      this.cursorName := cursorName;
      this.db := db;
    }

    /** `get_next`: the same `FETCH FORWARD` as `fetch_from_cursor`, on this cursor's name. */
    method GetNext(count: uint8, access: Access) returns (r: Result<seq<Ad>, RepoError>)
      requires db.Valid()
      modifies db
      ensures db.Valid() && db.rows == old(db.rows) && db.nextId == old(db.nextId)
      ensures FetchOutcome(r, db.cursors) == FetchStep(old(db.cursors), cursorName, count, access)
    {
      r := db.FetchFromCursor(cursorName, count, access);
    }
  }
}
