/**
 * The ad filter and the two ways ad_repo.rs turns it into a WHERE condition:
 * as typed clauses of a boxed query (get_page and the query inside new_cursor),
 * and, for the cursor declaration, as SQL text with positional placeholders
 * `$1, $2, ...` plus a separately built list of bind values.
 */
module Filter {
  import opened Wrappers
  import opened Ads

  /** A sparse filter: every field optional, absent fields constrain nothing. */
  datatype AdFilter = AdFilter(
    titleContains: Option<string>,
    descriptionContains: Option<string>,
    priceLt: Option<Decimal>,
    priceGt: Option<Decimal>,
    updatedAtLt: Option<Timestamp>,
    updatedAtGt: Option<Timestamp>)

  /** `AdFilter::default()`, used when a request carries no filters. */
  const EMPTY_FILTER: AdFilter := AdFilter(None, None, None, None, None, None)

  datatype Column = Title | Description | Price | UpdatedAt

  datatype Op = ILike | Lt | Gt

  /** SQL types of the columns and of the bound parameters. */
  datatype SqlType = Text | Numeric | TimestampType

  datatype Value = TextValue(text: string) | NumericValue(number: Decimal) | TimestampValue(time: Timestamp)

  /** One WHERE conjunct: `column op operand`. */
  datatype Clause = Clause(column: Column, op: Op, operand: Value)

  function ColumnType(c: Column): SqlType {
    match c
    case Title => Text
    case Description => Text
    case Price => Numeric
    case UpdatedAt => TimestampType
  }

  function TypeOf(v: Value): SqlType {
    match v
    case TextValue(_) => Text
    case NumericValue(_) => Numeric
    case TimestampValue(_) => TimestampType
  }

  /** The operand has its column's type, and ILIKE is used on text columns only. */
  predicate WellTyped(c: Clause) {
    TypeOf(c.operand) == ColumnType(c.column) && (c.op == ILike <==> ColumnType(c.column) == Text)
  }

  // ---------------------------------------------------------------------------
  // The builders, one per code path, each a chain of `if let Some` steps.
  // ---------------------------------------------------------------------------

  /** The boxed query of `get_page`. */
  function PageQueryClauses(f: AdFilter): seq<Clause> {
    var q0 := [];
    var q1 := if f.titleContains.Some? then q0 + [Clause(Title, ILike, TextValue("%" + f.titleContains.value + "%"))] else q0;
    var q2 := if f.descriptionContains.Some? then q1 + [Clause(Description, ILike, TextValue("%" + f.descriptionContains.value + "%"))] else q1;
    var q3 := if f.priceLt.Some? then q2 + [Clause(Price, Lt, NumericValue(f.priceLt.value))] else q2;
    var q4 := if f.priceGt.Some? then q3 + [Clause(Price, Gt, NumericValue(f.priceGt.value))] else q3;
    var q5 := if f.updatedAtLt.Some? then q4 + [Clause(UpdatedAt, Lt, TimestampValue(f.updatedAtLt.value))] else q4;
    var q6 := if f.updatedAtGt.Some? then q5 + [Clause(UpdatedAt, Gt, TimestampValue(f.updatedAtGt.value))] else q5;
    q6
  }

  /** The boxed query that `new_cursor` renders into its DECLARE statement. */
  function CursorQueryClauses(f: AdFilter): seq<Clause> {
    var q0 := [];
    var q1 := if f.titleContains.Some? then q0 + [Clause(Title, ILike, TextValue("%" + f.titleContains.value + "%"))] else q0;
    var q2 := if f.descriptionContains.Some? then q1 + [Clause(Description, ILike, TextValue("%" + f.descriptionContains.value + "%"))] else q1;
    var q3 := if f.priceLt.Some? then q2 + [Clause(Price, Lt, NumericValue(f.priceLt.value))] else q2;
    var q4 := if f.priceGt.Some? then q3 + [Clause(Price, Gt, NumericValue(f.priceGt.value))] else q3;
    var q5 := if f.updatedAtLt.Some? then q4 + [Clause(UpdatedAt, Lt, TimestampValue(f.updatedAtLt.value))] else q4;
    var q6 := if f.updatedAtGt.Some? then q5 + [Clause(UpdatedAt, Gt, TimestampValue(f.updatedAtGt.value))] else q5;
    q6
  }

  /** The values `new_cursor` binds to the DECLARE statement, each with its SQL type. */
  function CursorBinds(f: AdFilter): seq<Value> {
    var b0 := [];
    var b1 := if f.titleContains.Some? then b0 + [TextValue("%" + f.titleContains.value + "%")] else b0;
    var b2 := if f.descriptionContains.Some? then b1 + [TextValue("%" + f.descriptionContains.value + "%")] else b1;
    var b3 := if f.priceLt.Some? then b2 + [NumericValue(f.priceLt.value)] else b2;
    var b4 := if f.priceGt.Some? then b3 + [NumericValue(f.priceGt.value)] else b3;
    var b5 := if f.updatedAtLt.Some? then b4 + [TimestampValue(f.updatedAtLt.value)] else b4;
    var b6 := if f.updatedAtGt.Some? then b5 + [TimestampValue(f.updatedAtGt.value)] else b5;
    b6
  }

  // ---------------------------------------------------------------------------
  // An independent description of the clause list: the present fields, in a
  // fixed order, each contributing the clause it stands for.
  // ---------------------------------------------------------------------------

  datatype Field = TitleContains | DescriptionContains | PriceLt | PriceGt | UpdatedAtLt | UpdatedAtGt

  const FIELD_ORDER: seq<Field> := [TitleContains, DescriptionContains, PriceLt, PriceGt, UpdatedAtLt, UpdatedAtGt]

  /** Position of a field in the fixed order. */
  function Rank(fd: Field): (r: nat)
    ensures r < |FIELD_ORDER| && FIELD_ORDER[r] == fd
  {
    match fd
    case TitleContains => 0
    case DescriptionContains => 1
    case PriceLt => 2
    case PriceGt => 3
    case UpdatedAtLt => 4
    case UpdatedAtGt => 5
  }

  predicate IsPresent(f: AdFilter, fd: Field) {
    match fd
    case TitleContains => f.titleContains.Some?
    case DescriptionContains => f.descriptionContains.Some?
    case PriceLt => f.priceLt.Some?
    case PriceGt => f.priceGt.Some?
    case UpdatedAtLt => f.updatedAtLt.Some?
    case UpdatedAtGt => f.updatedAtGt.Some?
  }

  /** The clause a present field stands for; contains-terms become `%term%` patterns. */
  function FieldClause(f: AdFilter, fd: Field): (c: Clause)
    requires IsPresent(f, fd)
    ensures WellTyped(c)
  {
    match fd
    case TitleContains => Clause(Title, ILike, TextValue("%" + f.titleContains.value + "%"))
    case DescriptionContains => Clause(Description, ILike, TextValue("%" + f.descriptionContains.value + "%"))
    case PriceLt => Clause(Price, Lt, NumericValue(f.priceLt.value))
    case PriceGt => Clause(Price, Gt, NumericValue(f.priceGt.value))
    case UpdatedAtLt => Clause(UpdatedAt, Lt, TimestampValue(f.updatedAtLt.value))
    case UpdatedAtGt => Clause(UpdatedAt, Gt, TimestampValue(f.updatedAtGt.value))
  }

  /** The field a clause stands for, read off its column and operator. */
  function FieldOf(c: Clause): Field {
    match (c.column, c.op)
    case (Title, _) => TitleContains
    case (Description, _) => DescriptionContains
    case (Price, Lt) => PriceLt
    case (Price, _) => PriceGt
    case (UpdatedAt, Lt) => UpdatedAtLt
    case (UpdatedAt, _) => UpdatedAtGt
  }

  /**
   * `q` holds exactly the clauses of the present fields ranked below `n`, one
   * per field, each the clause its field stands for, in rank order.
   */
  ghost predicate FieldsBelow(q: seq<Clause>, f: AdFilter, n: nat) {
    ClausesOfPresentFields(q, f, n) && RanksIncrease(q) && PresentFieldsCovered(q, f, n)
  }

  /** Every clause stands for a present field ranked below `n`, and is that field's clause. */
  ghost predicate ClausesOfPresentFields(q: seq<Clause>, f: AdFilter, n: nat) {
    forall k :: 0 <= k < |q| ==>
      Rank(FieldOf(q[k])) < n && IsPresent(f, FieldOf(q[k])) && q[k] == FieldClause(f, FieldOf(q[k]))
  }

  ghost predicate RanksIncrease(q: seq<Clause>) {
    forall i, j :: 0 <= i < j < |q| ==> Rank(FieldOf(q[i])) < Rank(FieldOf(q[j]))
  }

  ghost predicate PresentFieldsCovered(q: seq<Clause>, f: AdFilter, n: nat) {
    forall fd :: Rank(fd) < n && IsPresent(f, fd) ==> exists k :: 0 <= k < |q| && FieldOf(q[k]) == fd
  }

  /** The clause one `if let Some` step contributes: one for a present field, none otherwise. */
  function ClauseIfPresent(f: AdFilter, fd: Field): seq<Clause> {
    if IsPresent(f, fd) then [FieldClause(f, fd)] else []
  }

  lemma PageClausesBySteps(f: AdFilter)
    ensures PageQueryClauses(f)
      == [] + ClauseIfPresent(f, TitleContains) + ClauseIfPresent(f, DescriptionContains)
       + ClauseIfPresent(f, PriceLt) + ClauseIfPresent(f, PriceGt)
       + ClauseIfPresent(f, UpdatedAtLt) + ClauseIfPresent(f, UpdatedAtGt)
  {
  }

  /** One `if let Some` step of a builder extends the invariant by one rank. */
  lemma OrderStep(f: AdFilter, q: seq<Clause>, fd: Field, n: nat)
    requires FieldsBelow(q, f, n) && n == Rank(fd)
    ensures FieldsBelow(q + ClauseIfPresent(f, fd), f, n + 1)
  {
    if IsPresent(f, fd) {
      OrderStepPresent(f, q, fd);
    } else {
      assert q + ClauseIfPresent(f, fd) == q;
      forall g | Rank(g) < n + 1 && IsPresent(f, g) ensures exists k :: 0 <= k < |q| && FieldOf(q[k]) == g {
        assert Rank(g) != Rank(fd);
      }
    }
  }

  lemma OrderStepPresent(f: AdFilter, q: seq<Clause>, fd: Field)
    requires FieldsBelow(q, f, Rank(fd)) && IsPresent(f, fd)
    ensures FieldsBelow(q + [FieldClause(f, fd)], f, Rank(fd) + 1)
  {
    StepKeepsClauses(f, q, fd);
    StepKeepsRanks(f, q, fd);
    StepCoversField(f, q, fd);
  }

  lemma StepKeepsClauses(f: AdFilter, q: seq<Clause>, fd: Field)
    requires ClausesOfPresentFields(q, f, Rank(fd)) && IsPresent(f, fd)
    ensures ClausesOfPresentFields(q + [FieldClause(f, fd)], f, Rank(fd) + 1)
  {
    var c := FieldClause(f, fd);
    var r := q + [c];
    assert FieldOf(c) == fd;
    forall k | 0 <= k < |r|
      ensures Rank(FieldOf(r[k])) < Rank(fd) + 1 && IsPresent(f, FieldOf(r[k])) && r[k] == FieldClause(f, FieldOf(r[k]))
    {
      if k < |q| { assert r[k] == q[k]; } else { assert r[k] == c; }
    }
  }

  lemma StepKeepsRanks(f: AdFilter, q: seq<Clause>, fd: Field)
    requires ClausesOfPresentFields(q, f, Rank(fd)) && RanksIncrease(q) && IsPresent(f, fd)
    ensures RanksIncrease(q + [FieldClause(f, fd)])
  {
    var c := FieldClause(f, fd);
    var r := q + [c];
    assert FieldOf(c) == fd;
    forall i, j | 0 <= i < j < |r| ensures Rank(FieldOf(r[i])) < Rank(FieldOf(r[j])) {
      assert r[i] == q[i];
      if j < |q| { assert r[j] == q[j]; } else { assert r[j] == c; }
    }
  }

  lemma StepCoversField(f: AdFilter, q: seq<Clause>, fd: Field)
    requires PresentFieldsCovered(q, f, Rank(fd)) && IsPresent(f, fd)
    ensures PresentFieldsCovered(q + [FieldClause(f, fd)], f, Rank(fd) + 1)
  {
    var c := FieldClause(f, fd);
    var r := q + [c];
    assert FieldOf(c) == fd;
    forall g | Rank(g) < Rank(fd) + 1 && IsPresent(f, g) ensures exists k :: 0 <= k < |r| && FieldOf(r[k]) == g {
      if Rank(g) < Rank(fd) {
        var k :| 0 <= k < |q| && FieldOf(q[k]) == g;
        assert r[k] == q[k];
      } else {
        assert g == fd;
        assert FieldOf(r[|q|]) == g;
      }
    }
  }

  /**
   * Each present field yields exactly one clause, absent fields yield nothing,
   * and the clauses come in the order title, description, price_lt, price_gt,
   * updated_at_lt, updated_at_gt.
   */
  lemma PageClausesFollowFieldOrder(f: AdFilter)
    ensures FieldsBelow(PageQueryClauses(f), f, |FIELD_ORDER|)
  {
    var q0: seq<Clause> := [];
    OrderStep(f, q0, TitleContains, 0);
    var q1 := q0 + ClauseIfPresent(f, TitleContains);
    OrderStep(f, q1, DescriptionContains, 1);
    var q2 := q1 + ClauseIfPresent(f, DescriptionContains);
    OrderStep(f, q2, PriceLt, 2);
    var q3 := q2 + ClauseIfPresent(f, PriceLt);
    OrderStep(f, q3, PriceGt, 3);
    var q4 := q3 + ClauseIfPresent(f, PriceGt);
    OrderStep(f, q4, UpdatedAtLt, 4);
    var q5 := q4 + ClauseIfPresent(f, UpdatedAtLt);
    OrderStep(f, q5, UpdatedAtGt, 5);
    var q6 := q5 + ClauseIfPresent(f, UpdatedAtGt);
    PageClausesBySteps(f);
  }

  /** Both access paths build the same clause sequence for the same filter. */
  lemma CursorAndPageClausesAgree(f: AdFilter)
    ensures CursorQueryClauses(f) == PageQueryClauses(f)
  {
  }

  // ---------------------------------------------------------------------------
  // Row selection.
  // ---------------------------------------------------------------------------

  /**
   * Whether a row satisfies one conjunct. `ilike(s, p)` is the server's
   * case-insensitive LIKE of `s` against pattern `p`; it is a parameter, so
   * nothing here depends on how the server folds case or reads `%` and `_`.
   */
  predicate Satisfies(ad: Ad, c: Clause, ilike: (string, string) -> bool) {
    match (c.column, c.op, c.operand)
    case (Title, ILike, TextValue(p)) => ilike(ad.title, p)
    case (Description, ILike, TextValue(p)) => ilike(ad.description, p)
    case (Price, Lt, NumericValue(x)) => ad.price < x
    case (Price, Gt, NumericValue(x)) => ad.price > x
    case (UpdatedAt, Lt, TimestampValue(t)) => ad.updatedAt < t
    case (UpdatedAt, Gt, TimestampValue(t)) => ad.updatedAt > t
    case _ => false
  }

  /** The WHERE condition: the conjunction of all clauses. */
  predicate SatisfiesAll(ad: Ad, cs: seq<Clause>, ilike: (string, string) -> bool) {
    forall k :: 0 <= k < |cs| ==> Satisfies(ad, cs[k], ilike)
  }

  /** What a filter means, field by field, independent of any clause list. */
  predicate MatchesFilter(ad: Ad, f: AdFilter, ilike: (string, string) -> bool) {
    && (f.titleContains.Some? ==> ilike(ad.title, "%" + f.titleContains.value + "%"))
    && (f.descriptionContains.Some? ==> ilike(ad.description, "%" + f.descriptionContains.value + "%"))
    && (f.priceLt.Some? ==> ad.price < f.priceLt.value)
    && (f.priceGt.Some? ==> ad.price > f.priceGt.value)
    && (f.updatedAtLt.Some? ==> ad.updatedAt < f.updatedAtLt.value)
    && (f.updatedAtGt.Some? ==> ad.updatedAt > f.updatedAtGt.value)
  }

  lemma SatisfiesAllAppend(ad: Ad, xs: seq<Clause>, ys: seq<Clause>, ilike: (string, string) -> bool)
    ensures SatisfiesAll(ad, xs + ys, ilike) <==> SatisfiesAll(ad, xs, ilike) && SatisfiesAll(ad, ys, ilike)
  {
    if SatisfiesAll(ad, xs, ilike) && SatisfiesAll(ad, ys, ilike) {
      forall k | 0 <= k < |xs + ys| ensures Satisfies(ad, (xs + ys)[k], ilike) {
        if k >= |xs| { assert (xs + ys)[k] == ys[k - |xs|]; }
      }
    }
    if SatisfiesAll(ad, xs + ys, ilike) {
      forall k | 0 <= k < |xs| ensures Satisfies(ad, xs[k], ilike) {
        assert (xs + ys)[k] == xs[k];
      }
      forall k | 0 <= k < |ys| ensures Satisfies(ad, ys[k], ilike) {
        assert (xs + ys)[|xs| + k] == ys[k];
      }
    }
  }

  lemma SatisfiesAllSnoc(ad: Ad, q: seq<Clause>, c: Clause, ilike: (string, string) -> bool)
    ensures SatisfiesAll(ad, q + [c], ilike) <==> SatisfiesAll(ad, q, ilike) && Satisfies(ad, c, ilike)
  {
    SatisfiesAllAppend(ad, q, [c], ilike);
    assert SatisfiesAll(ad, [c], ilike) <==> Satisfies(ad, c, ilike) by { assert [c][0] == c; }
  }

  /** A row is selected iff it satisfies every present field of the filter. */
  lemma SelectionIsConjunction(ad: Ad, f: AdFilter, ilike: (string, string) -> bool)
    ensures SatisfiesAll(ad, PageQueryClauses(f), ilike) <==> MatchesFilter(ad, f, ilike)
  {
    var q0: seq<Clause> := [];
    var q1 := if f.titleContains.Some? then q0 + [Clause(Title, ILike, TextValue("%" + f.titleContains.value + "%"))] else q0;
    if f.titleContains.Some? { SatisfiesAllSnoc(ad, q0, Clause(Title, ILike, TextValue("%" + f.titleContains.value + "%")), ilike); }
    assert SatisfiesAll(ad, q1, ilike) <==> SatisfiesAll(ad, q0, ilike) && (f.titleContains.Some? ==> ilike(ad.title, "%" + f.titleContains.value + "%"));
    var q2 := if f.descriptionContains.Some? then q1 + [Clause(Description, ILike, TextValue("%" + f.descriptionContains.value + "%"))] else q1;
    if f.descriptionContains.Some? { SatisfiesAllSnoc(ad, q1, Clause(Description, ILike, TextValue("%" + f.descriptionContains.value + "%")), ilike); }
    assert SatisfiesAll(ad, q2, ilike) <==> SatisfiesAll(ad, q1, ilike) && (f.descriptionContains.Some? ==> ilike(ad.description, "%" + f.descriptionContains.value + "%"));
    var q3 := if f.priceLt.Some? then q2 + [Clause(Price, Lt, NumericValue(f.priceLt.value))] else q2;
    if f.priceLt.Some? { SatisfiesAllSnoc(ad, q2, Clause(Price, Lt, NumericValue(f.priceLt.value)), ilike); }
    assert SatisfiesAll(ad, q3, ilike) <==> SatisfiesAll(ad, q2, ilike) && (f.priceLt.Some? ==> ad.price < f.priceLt.value);
    var q4 := if f.priceGt.Some? then q3 + [Clause(Price, Gt, NumericValue(f.priceGt.value))] else q3;
    if f.priceGt.Some? { SatisfiesAllSnoc(ad, q3, Clause(Price, Gt, NumericValue(f.priceGt.value)), ilike); }
    assert SatisfiesAll(ad, q4, ilike) <==> SatisfiesAll(ad, q3, ilike) && (f.priceGt.Some? ==> ad.price > f.priceGt.value);
    var q5 := if f.updatedAtLt.Some? then q4 + [Clause(UpdatedAt, Lt, TimestampValue(f.updatedAtLt.value))] else q4;
    if f.updatedAtLt.Some? { SatisfiesAllSnoc(ad, q4, Clause(UpdatedAt, Lt, TimestampValue(f.updatedAtLt.value)), ilike); }
    assert SatisfiesAll(ad, q5, ilike) <==> SatisfiesAll(ad, q4, ilike) && (f.updatedAtLt.Some? ==> ad.updatedAt < f.updatedAtLt.value);
    var q6 := if f.updatedAtGt.Some? then q5 + [Clause(UpdatedAt, Gt, TimestampValue(f.updatedAtGt.value))] else q5;
    if f.updatedAtGt.Some? { SatisfiesAllSnoc(ad, q5, Clause(UpdatedAt, Gt, TimestampValue(f.updatedAtGt.value)), ilike); }
    assert SatisfiesAll(ad, q6, ilike) <==> SatisfiesAll(ad, q5, ilike) && (f.updatedAtGt.Some? ==> ad.updatedAt > f.updatedAtGt.value);
    assert PageQueryClauses(f) == q6;
  }

  /** The default filter builds no clause, so it selects every row. */
  lemma EmptyFilterSelectsAll(ad: Ad, ilike: (string, string) -> bool)
    ensures PageQueryClauses(EMPTY_FILTER) == []
    ensures SatisfiesAll(ad, PageQueryClauses(EMPTY_FILTER), ilike)
  {
  }

  // ---------------------------------------------------------------------------
  // The cursor declaration: placeholders in the text, values bound by position.
  // ---------------------------------------------------------------------------

  /** A conjunct as rendered into SQL text: `column op $index`. */
  datatype Param = Param(column: Column, op: Op, index: nat)

  /** The rendered query text numbers the placeholders from `first`, in clause order. */
  function Render(cs: seq<Clause>, first: nat): (ps: seq<Param>)
    ensures |ps| == |cs|
    ensures forall k :: 0 <= k < |cs| ==> ps[k] == Param(cs[k].column, cs[k].op, first + k)
  {
    if cs == [] then [] else [Param(cs[0].column, cs[0].op, first)] + Render(cs[1..], first + 1)
  }

  /** The number of parameters the server infers from the text: its highest `$n`. */
  function MaxIndex(ps: seq<Param>): nat {
    if ps == [] then 0
    else
      var rest := MaxIndex(ps[1..]);
      if ps[0].index > rest then ps[0].index else rest
  }

  datatype BindError = CountMismatch | TypeMismatch

  /**
   * How the server executes text with placeholders and a typed bind list
   * (extended query protocol): the statement has as many parameters as the
   * larger of the bind count and its highest `$n`, so a list shorter than the
   * highest `$n` is refused while surplus binds are accepted and unused; each
   * `$n` takes the n-th bind, and its type must be the column's.
   */
  function BindParams(ps: seq<Param>, binds: seq<Value>): Result<seq<Clause>, BindError> {
    if |binds| < MaxIndex(ps) then Failure(CountMismatch) else Substitute(ps, binds)
  }

  function Substitute(ps: seq<Param>, binds: seq<Value>): Result<seq<Clause>, BindError> {
    if ps == [] then Success([])
    else
      var p := ps[0];
      if !(1 <= p.index <= |binds|) then Failure(CountMismatch)
      else if TypeOf(binds[p.index - 1]) != ColumnType(p.column) then Failure(TypeMismatch)
      else
        match Substitute(ps[1..], binds)
        case Success(rest) => Success([Clause(p.column, p.op, binds[p.index - 1])] + rest)
        case Failure(e) => Failure(e)
  }

  /** The clauses with their operands replaced, position by position. */
  function WithOperands(cs: seq<Clause>, vs: seq<Value>): (r: seq<Clause>)
    requires |vs| == |cs|
    ensures |r| == |cs|
    ensures forall k :: 0 <= k < |cs| ==> r[k] == Clause(cs[k].column, cs[k].op, vs[k])
  {
    if cs == [] then [] else [Clause(cs[0].column, cs[0].op, vs[0])] + WithOperands(cs[1..], vs[1..])
  }

  function Operands(cs: seq<Clause>): (vs: seq<Value>)
    ensures |vs| == |cs|
    ensures forall k :: 0 <= k < |cs| ==> vs[k] == cs[k].operand
  {
    if cs == [] then [] else [cs[0].operand] + Operands(cs[1..])
  }

  lemma {:induction false} MaxIndexOfRender(cs: seq<Clause>, first: nat)
    requires first >= 1
    ensures MaxIndex(Render(cs, first)) == if cs == [] then 0 else first + |cs| - 1
    decreases |cs|
  {
    if cs != [] {
      var ps := Render(cs, first);
      assert ps[1..] == Render(cs[1..], first + 1);
      MaxIndexOfRender(cs[1..], first + 1);
    }
  }

  lemma {:induction false} SubstituteRendered(cs: seq<Clause>, binds: seq<Value>, first: nat)
    requires first >= 1 && first - 1 + |cs| <= |binds|
    requires forall k :: 0 <= k < |cs| ==> TypeOf(binds[first - 1 + k]) == ColumnType(cs[k].column)
    ensures Substitute(Render(cs, first), binds) == Success(WithOperands(cs, binds[first - 1 .. first - 1 + |cs|]))
    decreases |cs|
  {
    if cs != [] {
      var ps := Render(cs, first);
      assert ps[1..] == Render(cs[1..], first + 1);
      SubstituteRendered(cs[1..], binds, first + 1);
      var vs := binds[first - 1 .. first - 1 + |cs|];
      assert vs[1..] == binds[first .. first + |cs[1..]|];
      assert WithOperands(cs, vs) == [Clause(cs[0].column, cs[0].op, vs[0])] + WithOperands(cs[1..], vs[1..]);
    }
  }

  /**
   * Positional binding: with at least as many binds as clauses, the first
   * `|cs|` each of its column's type, the k-th placeholder receives the k-th
   * bind and any surplus binds are ignored.
   */
  lemma PositionalBinding(cs: seq<Clause>, binds: seq<Value>)
    requires |binds| >= |cs|
    requires forall k :: 0 <= k < |cs| ==> TypeOf(binds[k]) == ColumnType(cs[k].column)
    ensures BindParams(Render(cs, 1), binds) == Success(WithOperands(cs, binds[..|cs|]))
  {
    MaxIndexOfRender(cs, 1);
    SubstituteRendered(cs, binds, 1);
    assert binds[0 .. |cs|] == binds[..|cs|];
  }

  /** A bind list shorter than the clause list leaves a placeholder unbound: refused. */
  lemma ShortBindListRefused(cs: seq<Clause>, binds: seq<Value>)
    requires |binds| < |cs|
    ensures BindParams(Render(cs, 1), binds) == Failure(CountMismatch)
  {
    MaxIndexOfRender(cs, 1);
  }

  /**
   * The bind list lines up one-for-one with the clause list of the cursor
   * query: same length, and the k-th bind is the k-th clause's operand.
   */
  lemma CursorBindsAlign(f: AdFilter)
    ensures CursorBinds(f) == Operands(CursorQueryClauses(f))
  {
    var q0: seq<Clause> := [];
    var b0: seq<Value> := [];
    var q1 := if f.titleContains.Some? then q0 + [Clause(Title, ILike, TextValue("%" + f.titleContains.value + "%"))] else q0;
    var b1 := if f.titleContains.Some? then b0 + [TextValue("%" + f.titleContains.value + "%")] else b0;
    if f.titleContains.Some? { OperandsSnoc(q0, Clause(Title, ILike, TextValue("%" + f.titleContains.value + "%"))); }
    assert b1 == Operands(q1);
    var q2 := if f.descriptionContains.Some? then q1 + [Clause(Description, ILike, TextValue("%" + f.descriptionContains.value + "%"))] else q1;
    var b2 := if f.descriptionContains.Some? then b1 + [TextValue("%" + f.descriptionContains.value + "%")] else b1;
    if f.descriptionContains.Some? { OperandsSnoc(q1, Clause(Description, ILike, TextValue("%" + f.descriptionContains.value + "%"))); }
    assert b2 == Operands(q2);
    var q3 := if f.priceLt.Some? then q2 + [Clause(Price, Lt, NumericValue(f.priceLt.value))] else q2;
    var b3 := if f.priceLt.Some? then b2 + [NumericValue(f.priceLt.value)] else b2;
    if f.priceLt.Some? { OperandsSnoc(q2, Clause(Price, Lt, NumericValue(f.priceLt.value))); }
    assert b3 == Operands(q3);
    var q4 := if f.priceGt.Some? then q3 + [Clause(Price, Gt, NumericValue(f.priceGt.value))] else q3;
    var b4 := if f.priceGt.Some? then b3 + [NumericValue(f.priceGt.value)] else b3;
    if f.priceGt.Some? { OperandsSnoc(q3, Clause(Price, Gt, NumericValue(f.priceGt.value))); }
    assert b4 == Operands(q4);
    var q5 := if f.updatedAtLt.Some? then q4 + [Clause(UpdatedAt, Lt, TimestampValue(f.updatedAtLt.value))] else q4;
    var b5 := if f.updatedAtLt.Some? then b4 + [TimestampValue(f.updatedAtLt.value)] else b4;
    if f.updatedAtLt.Some? { OperandsSnoc(q4, Clause(UpdatedAt, Lt, TimestampValue(f.updatedAtLt.value))); }
    assert b5 == Operands(q5);
    var q6 := if f.updatedAtGt.Some? then q5 + [Clause(UpdatedAt, Gt, TimestampValue(f.updatedAtGt.value))] else q5;
    var b6 := if f.updatedAtGt.Some? then b5 + [TimestampValue(f.updatedAtGt.value)] else b5;
    if f.updatedAtGt.Some? { OperandsSnoc(q5, Clause(UpdatedAt, Gt, TimestampValue(f.updatedAtGt.value))); }
    assert b6 == Operands(q6);
    assert CursorQueryClauses(f) == q6;
    assert CursorBinds(f) == b6;
  }

  lemma OperandsSnoc(q: seq<Clause>, c: Clause)
    ensures Operands(q + [c]) == Operands(q) + [c.operand]
  {
    OperandsAppend(q, [c]);
    assert Operands([c]) == [c.operand];
  }

  lemma OperandsAppend(xs: seq<Clause>, ys: seq<Clause>)
    ensures Operands(xs + ys) == Operands(xs) + Operands(ys)
  {
    var l, r := Operands(xs + ys), Operands(xs) + Operands(ys);
    forall k | 0 <= k < |l| ensures l[k] == r[k] {
      if k < |xs| { assert (xs + ys)[k] == xs[k]; } else { assert (xs + ys)[k] == ys[k - |xs|]; }
    }
  }

  lemma BuiltClausesWellTyped(f: AdFilter)
    ensures forall k :: 0 <= k < |PageQueryClauses(f)| ==> WellTyped(PageQueryClauses(f)[k])
  {
    PageClausesFollowFieldOrder(f);
    var cs := PageQueryClauses(f);
    forall k | 0 <= k < |cs| ensures WellTyped(cs[k]) {
      assert cs[k] == FieldClause(f, FieldOf(cs[k]));
    }
  }

  lemma WithOwnOperands(cs: seq<Clause>)
    ensures WithOperands(cs, Operands(cs)) == cs
  {
  }

  /**
   * Executing the cursor declaration binds exactly the conjuncts `get_page`
   * filters by: the two code paths select the same rows.
   */
  lemma CursorDeclarationMatchesPageQuery(f: AdFilter)
    ensures BindParams(Render(CursorQueryClauses(f), 1), CursorBinds(f)) == Success(PageQueryClauses(f))
  {
    var cs := CursorQueryClauses(f);
    CursorAndPageClausesAgree(f);
    CursorBindsAlign(f);
    BuiltClausesWellTyped(f);
    PositionalBinding(cs, CursorBinds(f));
    assert CursorBinds(f)[..|cs|] == CursorBinds(f);
    WithOwnOperands(cs);
  }
}
