/**
 * The `ads` table as an ordered sequence of rows, and the statements the
 * repository sends against it, as pure functions: lookup by primary key,
 * delete by key, full-row update by key, WHERE filtering and OFFSET/LIMIT.
 * The order of the sequence stands for the server's storage order, which no
 * query in the repository overrides with an ORDER BY.
 */
module Table {
  import opened Wrappers
  import opened Ints
  import opened Ads
  import opened Filter

  /** `id` is the primary key: no two rows share it. */
  ghost predicate UniqueIds(rows: seq<Ad>) {
    forall i, j :: 0 <= i < j < |rows| ==> rows[i].id != rows[j].id
  }

  predicate NoRowWithId(rows: seq<Ad>, id: int) {
    forall i :: 0 <= i < |rows| ==> rows[i].id != id
  }

  /** `ads::table.find(id).first().optional()`. */
  function FindById(rows: seq<Ad>, id: int): (r: Option<Ad>)
    ensures r.None? <==> NoRowWithId(rows, id)
    ensures r.Some? ==> r.value in rows && r.value.id == id
  {
    if rows == [] then None
    else if rows[0].id == id then Some(rows[0])
    else FindById(rows[1..], id)
  }

  /** `diesel::delete(ads::table.find(id))`: every row with the key goes, the rest keep their order. */
  function RemoveId(rows: seq<Ad>, id: int): (r: seq<Ad>)
    ensures |r| <= |rows|
    ensures forall a :: a in r <==> a in rows && a.id != id
  {
    if rows == [] then []
    else (if rows[0].id == id then [] else [rows[0]]) + RemoveId(rows[1..], id)
  }

  /** `diesel::update(ads::table.find(id)).set(row)`: the row with the key is replaced in place. */
  function ReplaceById(rows: seq<Ad>, id: int, row: Ad): (r: seq<Ad>)
    ensures |r| == |rows|
    ensures forall i :: 0 <= i < |rows| ==> r[i] == if rows[i].id == id then row else rows[i]
  {
    if rows == [] then []
    else [if rows[0].id == id then row else rows[0]] + ReplaceById(rows[1..], id, row)
  }

  /** `SELECT ... WHERE c1 AND c2 ...`: the rows satisfying every clause, in storage order. */
  function Filtered(rows: seq<Ad>, cs: seq<Clause>, ilike: (string, string) -> bool): (r: seq<Ad>)
    ensures |r| <= |rows|
    ensures forall a :: a in r <==> a in rows && SatisfiesAll(a, cs, ilike)
  {
    if rows == [] then []
    else (if SatisfiesAll(rows[0], cs, ilike) then [rows[0]] else []) + Filtered(rows[1..], cs, ilike)
  }

  function Min(a: int, b: int): int {
    if a <= b then a else b
  }

  /** `OFFSET offset LIMIT limit`: skip `offset` rows, then keep at most `limit`. */
  function Page<T>(xs: seq<T>, offset: nat, limit: nat): (r: seq<T>)
    ensures |r| == if offset >= |xs| then 0 else Min(limit, |xs| - offset)
    ensures forall i :: 0 <= i < |r| ==> r[i] == xs[offset + i]
  {
    if offset >= |xs| then [] else xs[offset .. offset + Min(limit, |xs| - offset)]
  }

  // ---------------------------------------------------------------------------
  // Properties
  // ---------------------------------------------------------------------------

  /** An empty WHERE keeps every row, in order. */
  lemma {:induction false} FilteredWithoutClauses(rows: seq<Ad>, ilike: (string, string) -> bool)
    ensures Filtered(rows, [], ilike) == rows
  {
    if rows != [] {
      FilteredWithoutClauses(rows[1..], ilike);
      assert rows == [rows[0]] + rows[1..];
    }
  }

  /** The default filter selects the whole table. */
  lemma EmptyFilterKeepsTable(rows: seq<Ad>, ilike: (string, string) -> bool)
    ensures Filtered(rows, PageQueryClauses(EMPTY_FILTER), ilike) == rows
  {
    FilteredWithoutClauses(rows, ilike);
  }

  /** A filter selects exactly the rows that match each of its present fields. */
  lemma FilteredByFilter(rows: seq<Ad>, f: AdFilter, ilike: (string, string) -> bool)
    ensures forall a :: a in Filtered(rows, PageQueryClauses(f), ilike) <==> a in rows && MatchesFilter(a, f, ilike)
  {
    forall a ensures SatisfiesAll(a, PageQueryClauses(f), ilike) <==> MatchesFilter(a, f, ilike) {
      SelectionIsConjunction(a, f, ilike);
    }
  }

  /** A page size of zero, or an offset at or past the end, gives an empty page, not an error. */
  lemma EmptyPages<T>(xs: seq<T>, offset: nat, limit: nat)
    requires limit == 0 || offset >= |xs|
    ensures Page(xs, offset, limit) == []
  {
  }

  /** Two adjacent pages together are the page that spans both. */
  lemma PagesAdjoin<T>(xs: seq<T>, offset: nat, n: nat, m: nat)
    ensures Page(xs, offset, n) + Page(xs, offset + n, m) == Page(xs, offset, n + m)
  {
    var l, r := Page(xs, offset, n) + Page(xs, offset + n, m), Page(xs, offset, n + m);
    assert |l| == |r|;
    forall i | 0 <= i < |l| ensures l[i] == r[i] {
      if i < |Page(xs, offset, n)| {
        assert l[i] == xs[offset + i];
      } else {
        assert l[i] == Page(xs, offset + n, m)[i - |Page(xs, offset, n)|];
      }
    }
  }

  /** Deleting by key removes the keyed row only: the count drops by one if it was there. */
  lemma {:induction false} RemoveIdCount(rows: seq<Ad>, id: int)
    requires UniqueIds(rows)
    ensures |RemoveId(rows, id)| == |rows| - (if FindById(rows, id).Some? then 1 else 0)
  {
    if rows != [] {
      assert UniqueIds(rows[1..]);
      RemoveIdCount(rows[1..], id);
      if rows[0].id == id {
        assert NoRowWithId(rows[1..], id) by {
          forall i | 0 <= i < |rows[1..]| ensures rows[1..][i].id != id {
            assert rows[1..][i] == rows[i + 1];
          }
        }
      }
    }
  }

  /** A second delete of the same key finds nothing and changes nothing. */
  lemma DeleteTwice(rows: seq<Ad>, id: int)
    ensures FindById(RemoveId(rows, id), id) == None
    ensures RemoveId(RemoveId(rows, id), id) == RemoveId(rows, id)
  {
    RemoveIdIdempotent(RemoveId(rows, id), id);
  }

  lemma {:induction false} RemoveIdIdempotent(rows: seq<Ad>, id: int)
    requires NoRowWithId(rows, id)
    ensures RemoveId(rows, id) == rows
  {
    if rows != [] {
      assert NoRowWithId(rows[1..], id) by {
        forall i | 0 <= i < |rows[1..]| ensures rows[1..][i].id != id { assert rows[1..][i] == rows[i + 1]; }
      }
      RemoveIdIdempotent(rows[1..], id);
      assert rows == [rows[0]] + rows[1..];
    }
  }

  /** Removing rows keeps keys unique. */
  lemma {:induction false} RemoveIdUnique(rows: seq<Ad>, id: int)
    requires UniqueIds(rows)
    ensures UniqueIds(RemoveId(rows, id))
  {
    if rows != [] {
      assert UniqueIds(rows[1..]);
      RemoveIdUnique(rows[1..], id);
      var rest := RemoveId(rows[1..], id);
      var r := RemoveId(rows, id);
      if rows[0].id != id {
        forall i, j | 0 <= i < j < |r| ensures r[i].id != r[j].id {
          assert r[j] == rest[j - 1];
          if i > 0 {
            assert r[i] == rest[i - 1];
          } else {
            assert rest[j - 1] in rows[1..];
            var m :| 0 <= m < |rows[1..]| && rows[1..][m] == rest[j - 1];
            assert rows[m + 1] == rest[j - 1];
          }
        }
      }
    }
  }

  /** Replacing a row by one with the same key keeps keys unique. */
  lemma ReplaceByIdUnique(rows: seq<Ad>, id: int, row: Ad)
    requires UniqueIds(rows) && row.id == id
    ensures UniqueIds(ReplaceById(rows, id, row))
  {
  }

  /** After an update the key finds the new row; other keys find what they found before. */
  lemma {:induction false} FindAfterReplace(rows: seq<Ad>, id: int, row: Ad, other: int)
    requires row.id == id && FindById(rows, id).Some?
    ensures FindById(ReplaceById(rows, id, row), id) == Some(row)
    ensures other != id ==> FindById(ReplaceById(rows, id, row), other) == FindById(rows, other)
  {
    var r := ReplaceById(rows, id, row);
    assert r[1..] == ReplaceById(rows[1..], id, row);
    if rows[0].id != id {
      FindAfterReplace(rows[1..], id, row, other);
    } else {
      if other != id && rows[1..] != [] && FindById(rows[1..], id).Some? {
        FindAfterReplace(rows[1..], id, row, other);
      } else if other != id {
        FindUnchangedByReplace(rows[1..], id, row, other);
      }
    }
  }

  lemma {:induction false} FindUnchangedByReplace(rows: seq<Ad>, id: int, row: Ad, other: int)
    requires row.id == id && other != id
    ensures FindById(ReplaceById(rows, id, row), other) == FindById(rows, other)
  {
    if rows != [] {
      var r := ReplaceById(rows, id, row);
      assert r[1..] == ReplaceById(rows[1..], id, row);
      FindUnchangedByReplace(rows[1..], id, row, other);
    }
  }

  /**
   * Appending a row under a fresh key: the key now finds exactly that row, and
   * every other key finds what it found before.
   */
  lemma {:induction false} FindAfterAppend(rows: seq<Ad>, row: Ad, other: int)
    requires NoRowWithId(rows, row.id)
    ensures FindById(rows + [row], row.id) == Some(row)
    ensures other != row.id ==> FindById(rows + [row], other) == FindById(rows, other)
  {
    if rows == [] {
      assert [] + [row] == [row];
    } else {
      assert (rows + [row])[1..] == rows[1..] + [row];
      assert NoRowWithId(rows[1..], row.id) by {
        forall i | 0 <= i < |rows[1..]| ensures rows[1..][i].id != row.id { assert rows[1..][i] == rows[i + 1]; }
      }
      FindAfterAppend(rows[1..], row, other);
    }
  }
}
