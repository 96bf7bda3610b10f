/**
 * A server-side cursor declared `WITH HOLD` and read with `FETCH FORWARD n`
 * (PostgreSQL semantics), plus the formation of the cursor's name from a
 * random UUID.
 *
 * A cursor holds the result of its query as materialised at declaration time
 * (`WITH HOLD` copies it when the declaring transaction commits) and a
 * position: 0 is before the first row, k in 1..|snapshot| is on row k, and
 * |snapshot| + 1 is after the last row.
 */
module Cursors {
  import opened Ints
  import opened Ads
  import opened Table

  datatype CursorState = CursorState(snapshot: seq<Ad>, position: nat)

  predicate ValidCursor(c: CursorState) {
    c.position <= |c.snapshot| + 1
  }

  /** The state right after `DECLARE ... CURSOR WITH HOLD FOR query`. */
  function Declared(snapshot: seq<Ad>): (c: CursorState)
    ensures ValidCursor(c) && c.snapshot == snapshot && c.position == 0
  {
    CursorState(snapshot, 0)
  }

  /** Rows fetched by one `FETCH FORWARD count`, and the cursor afterwards. */
  datatype Fetched = Fetched(rows: seq<Ad>, after: CursorState)

  /**
   * `FETCH FORWARD count`. A positive count returns the next `count` rows (fewer
   * at the end) and leaves the cursor on the last row returned, or after the
   * last row when it ran out. `FORWARD 0` re-fetches the current row, which
   * is nothing when the cursor is not on a row, and does not move.
   */
  function Fetch(c: CursorState, count: uint8): (r: Fetched)
    requires ValidCursor(c)
    ensures ValidCursor(r.after) && r.after.snapshot == c.snapshot
    ensures r.after.position >= c.position
    ensures count > 0 ==> r.rows == Page(c.snapshot, Min(c.position, |c.snapshot|), count)
    ensures count > 0 ==> (r.after.position == |c.snapshot| + 1 <==> c.position + count > |c.snapshot|)
    ensures count > 0 && c.position + count <= |c.snapshot| ==> r.after.position == c.position + count
    ensures count == 0 ==> r.after == c && |r.rows| <= 1
    ensures count == 0 && 1 <= c.position <= |c.snapshot| ==> r.rows == [c.snapshot[c.position - 1]]
    ensures count == 0 && !(1 <= c.position <= |c.snapshot|) ==> r.rows == []
  {
    var s, p := c.snapshot, c.position;
    if count == 0 then
      Fetched(if 1 <= p <= |s| then [s[p - 1]] else [], c)
    else if p + count <= |s| then
      Fetched(s[p .. p + count], CursorState(s, p + count))
    else
      Fetched(s[Min(p, |s|) ..], CursorState(s, |s| + 1))
  }

  /** `k` successive `FETCH FORWARD count` calls: all rows returned, in order, and the final state. */
  function FetchRepeatedly(c: CursorState, count: uint8, k: nat): (r: Fetched)
    requires ValidCursor(c)
    ensures ValidCursor(r.after) && r.after.snapshot == c.snapshot
    decreases k
  {
    if k == 0 then Fetched([], c)
    else
      var first := Fetch(c, count);
      var rest := FetchRepeatedly(first.after, count, k - 1);
      Fetched(first.rows + rest.rows, rest.after)
  }

  // ---------------------------------------------------------------------------
  // Properties
  // ---------------------------------------------------------------------------

  /** A cursor that has run past its last row returns nothing, and stays there. */
  lemma ExhaustedCursorIsEmpty(c: CursorState, count: uint8)
    requires ValidCursor(c) && c.position == |c.snapshot| + 1
    ensures Fetch(c, count).rows == [] && Fetch(c, count).after == c
  {
  }

  /**
   * Two successive positive fetches return the adjacent slices of the
   * snapshot: together exactly the rows one fetch of the combined size from
   * the same position would return, so batches neither overlap nor skip.
   */
  lemma ConsecutiveFetches(c: CursorState, n: uint8, m: uint8)
    requires ValidCursor(c) && c.position <= |c.snapshot| && n > 0 && m > 0
    ensures var first := Fetch(c, n);
            first.rows + Fetch(first.after, m).rows == Page(c.snapshot, c.position, n as nat + m as nat)
  {
    var first := Fetch(c, n);
    if c.position + n as nat <= |c.snapshot| {
      PagesAdjoin(c.snapshot, c.position, n as nat, m as nat);
    } else {
      assert Fetch(first.after, m).rows == [];
      assert Page(c.snapshot, c.position, n as nat) == Page(c.snapshot, c.position, n as nat + m as nat);
    }
  }

  /**
   * Starting anywhere up to the end, `k` fetches of a positive `count` return
   * the `k * count` rows that follow the position (fewer at the end).
   */
  lemma {:induction false} RepeatedFetchesArePages(c: CursorState, count: uint8, k: nat)
    requires ValidCursor(c) && c.position <= |c.snapshot| && count > 0
    ensures FetchRepeatedly(c, count, k).rows == Page(c.snapshot, c.position, k * count as nat)
    decreases k
  {
    if k > 0 {
      var n := count as nat;
      var m := (k - 1) * n;
      MultiplySucc(k, n);
      var first := Fetch(c, count);
      var rest := FetchRepeatedly(first.after, count, k - 1);
      assert FetchRepeatedly(c, count, k).rows == first.rows + rest.rows;
      if c.position + n <= |c.snapshot| {
        FetchThenPage(c, count, m);
        RepeatedFetchesArePages(first.after, count, k - 1);
      } else {
        FetchPastEnd(c, count, m);
        RepeatedFromExhausted(first.after, count, k - 1);
      }
    }
  }

  /** `k` batches of `n` are one batch followed by `k - 1` more. */
  lemma MultiplySucc(k: nat, n: nat)
    requires k > 0
    ensures k * n == n + (k - 1) * n
  {
  }

  /** A fetch that stays inside the snapshot, followed by the page after it. */
  lemma FetchThenPage(c: CursorState, count: uint8, m: nat)
    requires ValidCursor(c) && count > 0 && c.position + count as nat <= |c.snapshot|
    ensures Fetch(c, count).after.position == c.position + count as nat
    ensures Fetch(c, count).rows + Page(c.snapshot, c.position + count as nat, m)
            == Page(c.snapshot, c.position, count as nat + m)
  {
    PagesAdjoin(c.snapshot, c.position, count as nat, m);
  }

  /** A fetch that runs off the end returns everything a longer page would. */
  lemma FetchPastEnd(c: CursorState, count: uint8, m: nat)
    requires ValidCursor(c) && count > 0 && c.position <= |c.snapshot| < c.position + count as nat
    ensures Fetch(c, count).after.position == |c.snapshot| + 1
    ensures Fetch(c, count).rows == Page(c.snapshot, c.position, count as nat + m)
  {
  }

  lemma {:induction false} RepeatedFromExhausted(c: CursorState, count: uint8, k: nat)
    requires ValidCursor(c) && c.position == |c.snapshot| + 1
    ensures FetchRepeatedly(c, count, k).rows == []
  {
    if k > 0 {
      RepeatedFromExhausted(Fetch(c, count).after, count, k - 1);
    }
  }

  /**
   * From a freshly declared cursor, the first `k` batches of `count` rows are
   * exactly the first `k * count` rows of the declaration-time result.
   */
  lemma BatchesFromDeclaration(snapshot: seq<Ad>, count: uint8, k: nat)
    requires count > 0
    ensures FetchRepeatedly(Declared(snapshot), count, k).rows
            == snapshot[.. Min(k * count as nat, |snapshot|)]
  {
    RepeatedFetchesArePages(Declared(snapshot), count, k);
  }

  // ---------------------------------------------------------------------------
  // Cursor names
  // ---------------------------------------------------------------------------

  predicate IsLowerHex(ch: char) {
    ('0' <= ch <= '9') || ('a' <= ch <= 'f')
  }

  /** Where the hyphenated text form of a UUID has its dashes. */
  predicate IsDashPosition(i: int) {
    i == 8 || i == 13 || i == 18 || i == 23
  }

  /** The hyphenated, lower-case text form of a UUID: 8-4-4-4-12 hex digits. */
  predicate IsUuidText(u: string) {
    |u| == 36
    && (forall i :: 0 <= i < 36 ==> (u[i] == '-' <==> IsDashPosition(i)))
    && (forall i :: 0 <= i < 36 && u[i] != '-' ==> IsLowerHex(u[i]))
  }

  /** `str::replace("-", "")`. */
  function StripDashes(s: string): (r: string)
    ensures |r| <= |s| && '-' !in r
    ensures forall ch :: ch in r <==> ch in s && ch != '-'
  {
    if s == [] then [] else (if s[0] == '-' then "" else [s[0]]) + StripDashes(s[1..])
  }

  /** `"c_"` followed by the first ten characters of the dash-stripped UUID. */
  function CursorName(uuid: string): (name: string)
    requires IsUuidText(uuid)
    ensures |name| == 12 && name[..2] == "c_"
  {
    StripDashesOfUuid(uuid);
    "c_" + StripDashes(uuid)[..10]
  }

  lemma {:induction false} StripDashesAppend(a: string, b: string)
    ensures StripDashes(a + b) == StripDashes(a) + StripDashes(b)
  {
    if a != [] {
      assert (a + b)[0] == a[0] && (a + b)[1..] == a[1..] + b;
      StripDashesAppend(a[1..], b);
    } else {
      assert a + b == b;
    }
  }

  lemma {:induction false} StripDashesNone(a: string)
    requires '-' !in a
    ensures StripDashes(a) == a
  {
    if a != [] {
      StripDashesNone(a[1..]);
      assert a == [a[0]] + a[1..];
    }
  }

  lemma SplitAtDash(s: string, i: nat)
    requires i < |s| && s[i] == '-'
    ensures StripDashes(s) == StripDashes(s[..i]) + StripDashes(s[i + 1..])
  {
    var t := s[i..];
    assert s == s[..i] + t;
    StripDashesAppend(s[..i], t);
    assert t[0] == '-' && t[1..] == s[i + 1..];
    assert StripDashes(t) == StripDashes(s[i + 1..]);
  }

  /** The five dash-free groups of a UUID text, separated by single dashes. */
  predicate DashedGroups(u: string) {
    |u| == 36 && u[8] == '-' && u[13] == '-' && u[18] == '-' && u[23] == '-'
    && '-' !in u[..8] && '-' !in u[9..13] && '-' !in u[14..18] && '-' !in u[19..23] && '-' !in u[24..]
  }

  /** Stripping a UUID's dashes leaves its 32 hex digits, in order. */
  lemma StripDashesOfUuid(u: string)
    requires IsUuidText(u)
    ensures StripDashes(u) == u[..8] + u[9..13] + u[14..18] + u[19..23] + u[24..]
  {
    NoDashInGroup(u, 0, 8);
    NoDashInGroup(u, 9, 13);
    NoDashInGroup(u, 14, 18);
    NoDashInGroup(u, 19, 23);
    NoDashInGroup(u, 24, 36);
    assert u[24..36] == u[24..];
    StripDashedGroups(u);
  }

  lemma StripDashedGroups(u: string)
    requires DashedGroups(u)
    ensures StripDashes(u) == u[..8] + u[9..13] + u[14..18] + u[19..23] + u[24..]
  {
    var t1, t2, t3 := u[9..], u[14..], u[19..];
    assert StripDashes(u) == u[..8] + StripDashes(t1) by {
      SplitAtDash(u, 8);
      StripDashesNone(u[..8]);
    }
    assert StripDashes(t1) == u[9..13] + StripDashes(t2) by {
      SplitAtDash(t1, 4);
      assert t1[..4] == u[9..13] && t1[5..] == t2;
      StripDashesNone(u[9..13]);
    }
    assert StripDashes(t2) == u[14..18] + StripDashes(t3) by {
      SplitAtDash(t2, 4);
      assert t2[..4] == u[14..18] && t2[5..] == t3;
      StripDashesNone(u[14..18]);
    }
    assert StripDashes(t3) == u[19..23] + u[24..] by {
      SplitAtDash(t3, 4);
      assert t3[..4] == u[19..23] && t3[5..] == u[24..];
      StripDashesNone(u[19..23]);
      StripDashesNone(u[24..]);
    }
  }

  /** A group of positions holding no dash: its characters survive stripping. */
  lemma NoDashInGroup(u: string, lo: nat, hi: nat)
    requires IsUuidText(u) && lo <= hi <= 36
    requires forall i :: lo <= i < hi ==> !IsDashPosition(i)
    ensures '-' !in u[lo..hi]
  {
    var g := u[lo..hi];
    forall k | 0 <= k < |g| ensures g[k] != '-' {
      assert g[k] == u[lo + k] && !IsDashPosition(lo + k);
    }
  }

  /**
   * The cursor name is `c_`, the first UUID group and the first two digits of
   * the second group: twelve characters, all lower-case letters, digits or `_`.
   */
  lemma CursorNameShape(uuid: string)
    requires IsUuidText(uuid)
    ensures CursorName(uuid) == "c_" + uuid[..8] + uuid[9..11]
    ensures |CursorName(uuid)| == 12
    ensures forall i :: 2 <= i < 12 ==> IsLowerHex(CursorName(uuid)[i])
  {
    StripDashesOfUuid(uuid);
    var digits := StripDashes(uuid);
    assert digits[..10] == uuid[..8] + uuid[9..11] by {
      assert digits == (uuid[..8] + uuid[9..11]) + (uuid[11..13] + uuid[14..18] + uuid[19..23] + uuid[24..]);
    }
    var name := CursorName(uuid);
    assert name == "c_" + digits[..10];
    forall i | 2 <= i < 12 ensures IsLowerHex(name[i]) {
      if i < 10 {
        assert name[i] == uuid[i - 2];
      } else {
        assert name[i] == uuid[i - 1];
      }
    }
  }
}
