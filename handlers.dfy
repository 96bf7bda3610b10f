/**
 * The HTTP handlers: what each route answers, given its inputs and what the
 * repositories return.
 *
 * A handler either answers `Ok` with a body (status 200), answers `Err` with a
 * status code, or is `Aborted`: it panicked (an `unwrap` on nothing, a
 * division by zero), so the connection is dropped without a response.
 */
module Handlers {
  import opened Wrappers
  import opened Ints
  import opened Ads
  import opened Filter
  import opened Table
  import opened AdRepo
  import opened Images

  const OK: nat := 200
  const NO_CONTENT: nat := 204
  const BAD_REQUEST: nat := 400
  const NOT_FOUND: nat := 404
  const INTERNAL_SERVER_ERROR: nat := 500

  datatype Reply<+T> = Ok(body: T) | Err(status: nat) | Aborted

  // ---------------------------------------------------------------------------
  // GET /ads
  // ---------------------------------------------------------------------------

  /** The optional JSON body of `GET /ads`. */
  datatype PaginatedReq = PaginatedReq(perPage: Option<uint32>, offset: Option<uint32>, filters: Option<AdFilter>)

  datatype PaginatedRes = PaginatedRes(page: nat, items: seq<Ad>)

  /** The paging request after defaults: what `get_ads` hands to `get_page`. */
  datatype PageRequest = PageRequest(perPage: uint32, offset: uint32, filter: AdFilter)

  const DEFAULT_PER_PAGE: uint32 := 10

  /**
   * A body that is missing (or does not decode) stands for `per_page` 10,
   * `offset` 0 and no filters; each field left out of a body defaults on its
   * own to the same values.
   */
  function EffectiveRequest(payload: Option<PaginatedReq>): (r: PageRequest)
    ensures payload.None? ==> r == PageRequest(DEFAULT_PER_PAGE, 0, EMPTY_FILTER)
    ensures payload.Some? ==>
              && r.perPage == (if payload.value.perPage.Some? then payload.value.perPage.value else DEFAULT_PER_PAGE)
              && r.offset == (if payload.value.offset.Some? then payload.value.offset.value else 0)
              && r.filter == (if payload.value.filters.Some? then payload.value.filters.value else EMPTY_FILTER)
  {
    var params := match payload
      case Some(p) => p
      case None => PaginatedReq(Some(DEFAULT_PER_PAGE), Some(0), None);
    var perPage := match params.perPage case Some(n) => n case None => DEFAULT_PER_PAGE;
    var offset := match params.offset case Some(n) => n case None => 0;
    var filter := match params.filters case Some(f) => f case None => EMPTY_FILTER;
    PageRequest(perPage, offset, filter)
  }

  /**
   * The reported page as written: `offset / per_page + 1` in `u32`, which
   * wraps to 0 when `offset / per_page` is the largest `u32` (a release
   * build; a debug build panics there instead).
   */
  function PageNumberU32(offset: uint32, perPage: uint32): (page: uint32)
    requires perPage > 0
    ensures offset / perPage < U32_LIMIT - 1 ==> page == offset / perPage + 1
  {
    (offset / perPage + 1) % U32_LIMIT
  }

  /** With one item per page, the last offset is reported as page 0. */
  lemma PageNumberU32Wraps()
    ensures PageNumberU32(0xFFFF_FFFF, 1) == 0
  {
  }

  /** The page the offset falls in, counting pages of `perPage` items from 1. */
  function PageNumber(offset: uint32, perPage: uint32): (page: nat)
    requires perPage > 0
    ensures page >= 1 && (page - 1) * perPage <= offset < page * perPage
  {
    var q := offset / perPage;
    assert q * perPage <= offset < (q + 1) * perPage;
    q + 1
  }

  /** The two agree everywhere except the one offset where the `u32` sum wraps. */
  lemma PageNumberAgreement(offset: uint32, perPage: uint32)
    requires perPage > 0
    ensures PageNumberU32(offset, perPage) == PageNumber(offset, perPage)
            <==> !(perPage == 1 && offset == 0xFFFF_FFFF)
  {
    if perPage > 1 {
      assert offset / perPage < U32_LIMIT - 1 by {
        DivisionShrinks(offset, perPage);
      }
    }
  }

  lemma DivisionShrinks(offset: uint32, perPage: uint32)
    requires perPage > 1
    ensures offset / perPage < 0x8000_0000
  {
    var q := offset / perPage;
    assert q * perPage <= offset;
    ProductBound(q, perPage, offset);
  }

  lemma ProductBound(q: nat, p: nat, o: nat)
    requires p >= 2 && q * p <= o < U32_LIMIT
    ensures q < 0x8000_0000
  {
    assert q * p == q * 2 + q * (p - 2);
    assert q * (p - 2) >= 0;
  }

  /**
   * `get_ads`: fetch the page, then report it with its page number. The page
   * is fetched before the division, so with `per_page` 0 a failing fetch
   * still answers 500 and a successful one panics.
   */
  method GetAds(db: Database, payload: Option<PaginatedReq>, access: Access, ilike: (string, string) -> bool)
    returns (reply: Reply<PaginatedRes>)
    requires db.Valid()
    ensures var req := EffectiveRequest(payload);
            && (!access.Granted? ==> reply == Err(INTERNAL_SERVER_ERROR))
            && (access.Granted? && req.perPage == 0 ==> reply == Aborted)
            && (access.Granted? && req.perPage > 0 ==>
                  reply == Ok(PaginatedRes(PageNumber(req.offset, req.perPage),
                                           Page(Filtered(db.rows, PageQueryClauses(req.filter), ilike), req.offset, req.perPage))))
    ensures reply.Ok? && reply.body.page < U32_LIMIT ==>
              reply.body.page == PageNumberU32(EffectiveRequest(payload).offset, EffectiveRequest(payload).perPage)
    ensures reply.Ok? ==> |reply.body.items| <= EffectiveRequest(payload).perPage
    ensures reply.Ok? ==> forall a :: a in reply.body.items ==> a in db.rows && MatchesFilter(a, EffectiveRequest(payload).filter, ilike)
  {
    var req := EffectiveRequest(payload);
    if req.perPage > 0 {
      PageNumberAgreement(req.offset, req.perPage);
    }
    var items := db.GetPage(req.offset, req.perPage, req.filter, access, ilike);
    match items
    case Failure(_) =>
      reply := Err(INTERNAL_SERVER_ERROR);
    case Success(page) =>
      if req.perPage == 0 {
        reply := Aborted;
      } else {
        reply := Ok(PaginatedRes(PageNumber(req.offset, req.perPage), page));
      }
  }

  // ---------------------------------------------------------------------------
  // GET /ads/:id
  // ---------------------------------------------------------------------------

  /** `get_ad`: the path segment must parse as an `i32`; then found, not found or failed. */
  method GetAd(db: Database, idText: string, access: Access) returns (reply: Reply<Ad>)
    requires db.Valid()
    ensures ParseInt32(idText).None? ==> reply == Err(BAD_REQUEST)
    ensures ParseInt32(idText).Some? && !access.Granted? ==> reply == Err(INTERNAL_SERVER_ERROR)
    ensures ParseInt32(idText).Some? && access.Granted? ==>
              var id := ParseInt32(idText).value;
              && (NoRowWithId(db.rows, id) ==> reply == Err(NOT_FOUND))
              && (!NoRowWithId(db.rows, id) ==> reply.Ok? && reply.body in db.rows && reply.body.id == id)
  {
    var parsed := ParseInt32(idText);
    if parsed.None? {
      return Err(BAD_REQUEST);
    }
    var found := db.GetById(parsed.value, access);
    match found
    case Success(Some(ad)) => reply := Ok(ad);
    case Success(None) => reply := Err(NOT_FOUND);
    case Failure(_) => reply := Err(INTERNAL_SERVER_ERROR);
  }

  // ---------------------------------------------------------------------------
  // GET /images/:id
  // ---------------------------------------------------------------------------

  datatype ImageBody = ImageBody(contentType: string, bytes: seq<uint8>)

  /** What an HTTP header value may hold: tab, or any character from space up except DEL. */
  predicate IsHeaderValue(s: string) {
    forall i :: 0 <= i < |s| ==> s[i] == '\t' || (' ' <= s[i] && s[i] != '\U{7F}')
  }

  /**
   * `get_image`: the stored bytes with `Content-Type` set to the stored mime
   * type. A mime type that is no valid header value makes the response
   * builder fail, and its `unwrap` panics.
   */
  method GetImage(store: ImageStore, id: string, readOk: bool) returns (reply: Reply<ImageBody>)
    ensures (id !in store.images || !readOk) ==> reply == Err(INTERNAL_SERVER_ERROR)
    ensures id in store.images && readOk ==>
              var s := store.images[id];
              reply == if IsHeaderValue(s.mimeType) then Ok(ImageBody(s.mimeType, s.bytes)) else Aborted
  {
    var image := store.GetImage(id, readOk);
    match image
    case Failure(_) => reply := Err(INTERNAL_SERVER_ERROR);
    case Success(img) =>
      if IsHeaderValue(img.mimeType) {
        reply := Ok(ImageBody(img.mimeType, img.bytes));
      } else {
        reply := Aborted;
      }
  }

  // ---------------------------------------------------------------------------
  // POST /ads
  // ---------------------------------------------------------------------------

  /** One uploaded file of the multipart form; the name and type may be absent. */
  datatype Upload = Upload(fileName: Option<string>, contentType: Option<string>, contents: seq<uint8>)

  /** The multipart form of `POST /ads` and `PUT /ads/:id`. */
  datatype AdRequest = AdRequest(
    title: string,
    description: string,
    price: Decimal,
    userEmail: string,
    userPhone: string,
    topAd: bool,
    images: seq<Upload>,
    imageIds: seq<string>)

  function ContentOf(req: AdRequest): AdContent {
    AdContent(req.title, req.description, req.price, req.userEmail, req.userPhone, req.topAd)
  }

  /** Where the upload loop stopped, if it did. */
  datatype Stop = Running | MissingField(at: nat) | StoreFailedAt(at: nat)

  /** The upload loop's state: where it stopped, the ids pushed so far, the store's images. */
  datatype UploadRun = UploadRun(stop: Stop, ids: seq<string>, images: map<string, StoredImage>)

  /**
   * The first `n` rounds of the upload loop, starting from the store holding
   * `start`: each round needs the file name and content type, then stores
   * the image and pushes its id; the first missing field or failed store
   * ends the loop.
   */
  function RunUploads(start: map<string, StoredImage>, uploads: seq<Upload>, io: nat -> StoreIo, n: nat): UploadRun
    requires n <= |uploads|
  {
    if n == 0 then UploadRun(Running, [], start)
    else
      var run := RunUploads(start, uploads, io, n - 1);
      if !run.stop.Running? then run
      else UploadStep(run, uploads[n - 1], io(n - 1), n - 1)
  }

  function UploadStep(run: UploadRun, u: Upload, io: StoreIo, at: nat): UploadRun {
    if u.fileName.None? || u.contentType.None? then run.(stop := MissingField(at))
    else if io.IoFailed? then run.(stop := StoreFailedAt(at))
    else UploadRun(Running, run.ids + [io.uuid],
                   run.images[io.uuid := StoredImage(u.fileName.value, u.contentType.value, u.contents)])
  }

  predicate Storable(u: Upload, io: StoreIo) {
    u.fileName.Some? && u.contentType.Some? && io.Written?
  }

  /**
   * Uploads are stored in order: while the loop runs, upload `j` has been
   * stored and its id is the `j`-th id; when it stops at `k`, every upload
   * before `k` was stored, and upload `k` lacked a field or failed to store.
   */
  lemma {:induction false} UploadsInOrder(start: map<string, StoredImage>, uploads: seq<Upload>, io: nat -> StoreIo, n: nat)
    requires n <= |uploads|
    ensures var run := RunUploads(start, uploads, io, n);
            && (run.stop.Running? ==> |run.ids| == n && forall j :: 0 <= j < n ==> Storable(uploads[j], io(j)) && run.ids[j] == io(j).uuid)
            && (run.stop.MissingField? ==>
                  && run.stop.at < n && |run.ids| == run.stop.at
                  && (uploads[run.stop.at].fileName.None? || uploads[run.stop.at].contentType.None?)
                  && forall j :: 0 <= j < run.stop.at ==> Storable(uploads[j], io(j)))
            && (run.stop.StoreFailedAt? ==>
                  && run.stop.at < n && |run.ids| == run.stop.at && io(run.stop.at).IoFailed?
                  && forall j :: 0 <= j < run.stop.at ==> Storable(uploads[j], io(j)))
  {
    if n > 0 {
      UploadsInOrder(start, uploads, io, n - 1);
    }
  }

  /** A stored upload can be read back under its id, with its name, type and bytes. */
  lemma {:induction false} StoredUploadsReadBack(start: map<string, StoredImage>, uploads: seq<Upload>, io: nat -> StoreIo, n: nat, j: nat)
    requires n <= |uploads| && j < n
    requires RunUploads(start, uploads, io, n).stop.Running?
    requires forall i :: 0 <= i < n && i != j ==> io(i) != io(j)
    ensures && Storable(uploads[j], io(j))
            && io(j).uuid in RunUploads(start, uploads, io, n).images
            && RunUploads(start, uploads, io, n).images[io(j).uuid]
                 == StoredImage(uploads[j].fileName.value, uploads[j].contentType.value, uploads[j].contents)
  {
    UploadsInOrder(start, uploads, io, n);
    if j < n - 1 {
      StoredUploadsReadBack(start, uploads, io, n - 1, j);
    }
  }

  /**
   * `create_ad`: store every upload in order, collecting their ids, then
   * create the ad with exactly those ids and answer its id as decimal text.
   * The form's own `image_ids` field is not used. A missing file name or
   * content type panics; a failed store answers 500 without creating the ad;
   * images stored before either stay in the store.
   */
  method CreateAd(db: Database, store: ImageStore, req: AdRequest, io: nat -> StoreIo,
                  access: Access, createdAt: Timestamp, updatedAt: Timestamp)
    returns (reply: Reply<string>)
    requires db.Valid()
    modifies db, store
    ensures db.Valid()
    ensures var run := RunUploads(old(store.images), req.images, io, |req.images|);
            && store.images == run.images
            && (run.stop.MissingField? ==> reply == Aborted)
            && (run.stop.StoreFailedAt? ==> reply == Err(INTERNAL_SERVER_ERROR))
            && (!run.stop.Running? ==> db.rows == old(db.rows) && db.nextId == old(db.nextId))
            && (run.stop.Running? && access.Granted? && old(db.nextId) <= I32_MAX && ContentFits(ContentOf(req)) ==> reply.Ok?)
            && (run.stop.Running? && !(access.Granted? && old(db.nextId) <= I32_MAX && ContentFits(ContentOf(req))) ==>
                  reply == Err(INTERNAL_SERVER_ERROR))
            && (reply.Err? ==> db.rows == old(db.rows))
            && (reply.Ok? ==>
                  && run.stop.Running?
                  && |db.rows| == |old(db.rows)| + 1
                  && var ad := db.rows[|db.rows| - 1];
                     && db.rows == old(db.rows) + [ad]
                     && FindById(db.rows, ad.id) == Some(ad)
                     && ad.images == run.ids && ad.status == ACTIVE
                     && ad.title == ToVarchar(req.title, 255).value
                     && ad.userEmail == ToVarchar(req.userEmail, 255).value
                     && ad.userPhone == ToVarchar(req.userPhone, 50).value
                     && ad.description == req.description && ad.price == req.price && ad.topAd == req.topAd
                     && reply.body == DecimalText(ad.id)
                     && ParseInt32(reply.body) == Some(ad.id))
    ensures db.cursors == old(db.cursors)
  {
    var ids: seq<string> := [];
    var i := 0;
    while i < |req.images|
      invariant 0 <= i <= |req.images|
      invariant RunUploads(old(store.images), req.images, io, i) == UploadRun(Running, ids, store.images)
      invariant db.rows == old(db.rows) && db.nextId == old(db.nextId) && db.cursors == old(db.cursors)
    {
      var u := req.images[i];
      if u.fileName.None? || u.contentType.None? {
        StopPersists(old(store.images), req.images, io, i + 1, |req.images|);
        return Aborted;
      }
      var id := store.CreateImage(u.fileName.value, u.contents, u.contentType.value, io(i));
      if id.Failure? {
        StopPersists(old(store.images), req.images, io, i + 1, |req.images|);
        return Err(INTERNAL_SERVER_ERROR);
      }
      ids := ids + [id.value];
      i := i + 1;
    }
    var created := db.Create(ContentOf(req), ids, access, createdAt, updatedAt);
    if created.Failure? {
      return Err(INTERNAL_SERVER_ERROR);
    }
    var ad := created.value;
    FindAfterAppend(old(db.rows), ad, ad.id);
    ParseDecimalText(ad.id);
    reply := Ok(DecimalText(ad.id));
  }

  /** Once the loop has stopped, later rounds change nothing. */
  lemma {:induction false} StopPersists(start: map<string, StoredImage>, uploads: seq<Upload>, io: nat -> StoreIo, n: nat, m: nat)
    requires n <= m <= |uploads| && !RunUploads(start, uploads, io, n).stop.Running?
    ensures RunUploads(start, uploads, io, m) == RunUploads(start, uploads, io, n)
    decreases m - n
  {
    if m > n {
      StopPersists(start, uploads, io, n, m - 1);
    }
  }

  // ---------------------------------------------------------------------------
  // PUT /ads/:id and DELETE /ads/:id
  // ---------------------------------------------------------------------------

  /** `update_ad` is a stub: it answers 200 and touches neither store. */
  method UpdateAd(db: Database, store: ImageStore, idText: string, req: AdRequest) returns (status: nat)
    ensures status == OK
  {
    status := OK;
  }

  /** `delete_ad` is a stub: it answers 204 and touches neither store. */
  method DeleteAd(db: Database, store: ImageStore, idText: string) returns (status: nat)
    ensures status == NO_CONTENT
  {
    status := NO_CONTENT;
  }
}
